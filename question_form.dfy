/** The question editor (src/components/Assessments/QuestionForm.tsx): every edit
    builds a new question from the current one with the changed fields spread
    over it. Inputs arrive already parsed: a cleared number field is `None`. */
module QuestionForm {
  import opened Types
  import opened Sequences

  /** `Partial<AssessmentQuestion>`: the fields an edit sets. For `condition` and
      `maxLength` the inner option is the value written, which may be empty. */
  datatype QuestionPatch = QuestionPatch(
    text: Option<string>,
    qtype: Option<QuestionType>,
    options: Option<seq<string>>,
    required: Option<bool>,
    condition: Option<Option<Condition>>,
    range: Option<Range>,
    maxLength: Option<Option<int>>)

  const NoChanges := QuestionPatch(None, None, None, None, None, None, None)

  function Pick<T>(change: Option<T>, current: T): T {
    if change.Some? then change.value else current
  }

  /** `update(changes)`: `{ ...local, ...changes }`. Fields present in the patch
      take its values; the id and every absent field are kept. */
  function Update(q: Question, changes: QuestionPatch): (r: Question)
    ensures r.id == q.id
    ensures changes.text.None? ==> r.text == q.text
    ensures changes.qtype.None? ==> r.qtype == q.qtype
    ensures changes.options.None? ==> r.options == q.options
    ensures changes.required.None? ==> r.required == q.required
    ensures changes.condition.None? ==> r.condition == q.condition
    ensures changes.range.None? ==> r.range == q.range
    ensures changes.maxLength.None? ==> r.maxLength == q.maxLength
    ensures changes.text.Some? ==> r.text == changes.text.value
    ensures changes.qtype.Some? ==> r.qtype == changes.qtype.value
    ensures changes.options.Some? ==> r.options == changes.options.value
    ensures changes.required.Some? ==> r.required == changes.required.value
    ensures changes.condition.Some? ==> r.condition == changes.condition.value
    ensures changes.range.Some? ==> r.range == changes.range.value
    ensures changes.maxLength.Some? ==> r.maxLength == changes.maxLength.value
  {
    Question(q.id,
             Pick(changes.qtype, q.qtype),
             Pick(changes.text, q.text),
             Pick(changes.options, q.options),
             Pick(changes.required, q.required),
             Pick(changes.condition, q.condition),
             Pick(changes.range, q.range),
             Pick(changes.maxLength, q.maxLength))
  }

  /** The later of two patches wins field by field. */
  function Then(first: QuestionPatch, second: QuestionPatch): QuestionPatch {
    QuestionPatch(
      if second.text.Some? then second.text else first.text,
      if second.qtype.Some? then second.qtype else first.qtype,
      if second.options.Some? then second.options else first.options,
      if second.required.Some? then second.required else first.required,
      if second.condition.Some? then second.condition else first.condition,
      if second.range.Some? then second.range else first.range,
      if second.maxLength.Some? then second.maxLength else first.maxLength)
  }

  /** An empty patch changes nothing, applying a patch twice is applying it
      once, and two updates in a row are one update with the merged patch. */
  lemma UpdateLaws(q: Question, p1: QuestionPatch, p2: QuestionPatch)
    ensures Update(q, NoChanges) == q
    ensures Update(Update(q, p1), p1) == Update(q, p1)
    ensures Update(Update(q, p1), p2) == Update(q, Then(p1, p2))
  {
  }

  // ---------------- Field edits ----------------

  /** The question text input: only the text changes. */
  function SetText(q: Question, text: string): (r: Question)
    ensures r.text == text && r.(text := q.text) == q
  {
    Update(q, NoChanges.(text := Some(text)))
  }

  /** The type select: only the type changes; options, range and maxLength
      written under an earlier type stay. */
  function SetType(q: Question, t: QuestionType): (r: Question)
    ensures r.qtype == t && r.(qtype := q.qtype) == q
    ensures r.options == q.options && r.range == q.range && r.maxLength == q.maxLength
  {
    Update(q, NoChanges.(qtype := Some(t)))
  }

  /** Switching the type away and back restores the question. */
  lemma TypeRoundTrip(q: Question, t: QuestionType)
    ensures SetType(SetType(q, t), q.qtype) == q
  {
  }

  /** The required checkbox: only `required` changes. */
  function SetRequired(q: Question, required: bool): (r: Question)
    ensures r.required == required && r.(required := q.required) == q
  {
    Update(q, NoChanges.(required := Some(required)))
  }

  /** The condition select: "" ("-- Show always --") removes the condition; a
      question id becomes the condition's target, keeping the value to compare
      with, or "" when there was no condition. */
  function PickCondition(q: Question, choice: string): (r: Question)
    ensures r.(condition := q.condition) == q
    ensures choice == "" <==> r.condition.None?
    ensures choice != "" ==> r.condition.value.questionId == choice
    ensures choice != "" ==>
      r.condition.value.equals == (if q.condition.Some? then q.condition.value.equals else "")
  {
    var c := if choice != "" then Some(Condition(choice, if q.condition.Some? then q.condition.value.equals else "")) else None;
    Update(q, NoChanges.(condition := Some(c)))
  }

  /** The equals input: only `equals` changes and the target is kept; without
      a condition the target falls back to "". */
  function SetEquals(q: Question, value: string): (r: Question)
    ensures r.(condition := q.condition) == q
    ensures r.condition.Some? && r.condition.value.equals == value
    ensures r.condition.value.questionId == (if q.condition.Some? then q.condition.value.questionId else "")
  {
    var target := if q.condition.Some? then q.condition.value.questionId else "";
    Update(q, NoChanges.(condition := Some(Some(Condition(target, value)))))
  }

  /** Re-targeting a condition keeps the value to compare with, while passing
      through "Show always" forgets it. */
  lemma ConditionEditing(q: Question, a: string, b: string, v: string)
    requires a != "" && b != ""
    ensures PickCondition(SetEquals(PickCondition(q, a), v), b).condition == Some(Condition(b, v))
    ensures PickCondition(PickCondition(SetEquals(q, v), ""), b).condition == Some(Condition(b, ""))
  {
  }

  /** The minimum input: only the minimum changes, the maximum is kept; an
      empty field removes the bound. */
  function SetMin(q: Question, input: Option<int>): (r: Question)
    ensures r.(range := q.range) == q
    ensures r.range.min == input && r.range.max == q.range.max
  {
    Update(q, NoChanges.(range := Some(q.range.(min := input))))
  }

  /** The maximum input: only the maximum changes, the minimum is kept. */
  function SetMax(q: Question, input: Option<int>): (r: Question)
    ensures r.(range := q.range) == q
    ensures r.range.max == input && r.range.min == q.range.min
  {
    Update(q, NoChanges.(range := Some(q.range.(max := input))))
  }

  /** The two bounds are edited independently: setting both, in either order,
      gives the same question. */
  lemma BoundsCommute(q: Question, lo: Option<int>, hi: Option<int>)
    ensures SetMax(SetMin(q, lo), hi) == SetMin(SetMax(q, hi), lo)
    ensures SetMax(SetMin(q, lo), hi).range == Range(lo, hi)
  {
  }

  /** The max-length input: only `maxLength` changes; an empty field removes it. */
  function SetMaxLength(q: Question, input: Option<int>): (r: Question)
    ensures r.maxLength == input && r.(maxLength := q.maxLength) == q
  {
    Update(q, NoChanges.(maxLength := Some(input)))
  }

  // ---------------- Options ----------------

  /** `addOption`: one empty option at the end. */
  function AddOption(q: Question): (r: Question)
    ensures |r.options| == |q.options| + 1
    ensures r.options[..|q.options|] == q.options && r.options[|q.options|] == ""
    ensures r.(options := q.options) == q
  {
    Update(q, NoChanges.(options := Some(q.options + [""])))
  }

  /** `updateOption(i, v)`: only option `i` changes. */
  function UpdateOption(q: Question, i: nat, value: string): (r: Question)
    requires i < |q.options|
    ensures |r.options| == |q.options| && r.options[i] == value
    ensures forall j :: 0 <= j < |q.options| && j != i ==> r.options[j] == q.options[j]
    ensures r.(options := q.options) == q
  {
    var newOptions := q.options[i := value];
    Update(q, NoChanges.(options := Some(newOptions)))
  }

  /** `removeOption(i)`: option `i` is spliced out and the later ones move down. */
  function RemoveOption(q: Question, i: nat): (r: Question)
    requires i < |q.options|
    ensures |r.options| == |q.options| - 1
    ensures forall j :: 0 <= j < i ==> r.options[j] == q.options[j]
    ensures forall j :: i <= j < |r.options| ==> r.options[j] == q.options[j + 1]
    ensures r.(options := q.options) == q
  {
    var newOptions := RemoveAt(q.options, i);
    Update(q, NoChanges.(options := Some(newOptions)))
  }

  /** Removing the option just added, or writing back an option's own text,
      leaves the question as it was. */
  lemma OptionRoundTrips(q: Question, i: nat)
    requires i < |q.options|
    ensures RemoveOption(AddOption(q), |q.options|) == q
    ensures UpdateOption(q, i, q.options[i]) == q
  {
    assert RemoveAt(q.options + [""], |q.options|) == q.options;
  }

  // ---------------- Condition targets ----------------

  /** The ids of a list of questions, in order. */
  function Ids(qs: seq<Question>): (r: seq<string>)
    ensures |r| == |qs| && forall i :: 0 <= i < |qs| ==> r[i] == qs[i].id
  {
    seq(|qs|, i requires 0 <= i < |qs| => qs[i].id)
  }

  /** The questions other than the one being edited, in order. */
  function Others(qs: seq<Question>, selfId: string): (r: seq<Question>)
    ensures forall k :: 0 <= k < |r| ==> r[k] in qs && r[k].id != selfId
    ensures forall k :: 0 <= k < |qs| && qs[k].id != selfId ==> qs[k] in r
  {
    Filter(qs, (q: Question) => q.id != selfId)
  }

  /** The ids the condition select offers: every question of every section, in
      order, except the question being edited. */
  function ConditionChoices(sections: seq<Section>, selfId: string): (r: seq<string>)
    ensures selfId !in r
    ensures forall k :: 0 <= k < |r| ==> r[k] in Ids(Flatten(sections))
    ensures forall i :: 0 <= i < |Flatten(sections)| && Flatten(sections)[i].id != selfId ==> Flatten(sections)[i].id in r
  {
    var all := Flatten(sections);
    var qs := Others(all, selfId);
    var r := Ids(qs);
    forall i | 0 <= i < |all| && all[i].id != selfId
      ensures all[i].id in r
    {
      var k :| 0 <= k < |qs| && qs[k] == all[i];
      assert r[k] == all[i].id;
    }
    forall k | 0 <= k < |r|
      ensures r[k] in Ids(all)
    {
      var i :| 0 <= i < |all| && all[i] == qs[k];
      assert Ids(all)[i] == r[k];
    }
    r
  }

  /** The choices follow the sections in order: those of `a` come before those of `b`. */
  lemma ConditionChoicesConcat(a: seq<Section>, b: seq<Section>, selfId: string)
    ensures ConditionChoices(a + b, selfId) == ConditionChoices(a, selfId) + ConditionChoices(b, selfId)
  {
    FlattenConcat(a, b);
    OthersConcat(Flatten(a), Flatten(b), selfId);
    var oa, ob := Others(Flatten(a), selfId), Others(Flatten(b), selfId);
    assert Ids(oa + ob) == Ids(oa) + Ids(ob);
  }

  lemma OthersConcat(a: seq<Question>, b: seq<Question>, selfId: string)
    ensures Others(a + b, selfId) == Others(a, selfId) + Others(b, selfId)
  {
    FilterConcat(a, b, (q: Question) => q.id != selfId);
  }

  /** Within a section the choices follow the questions in order. */
  lemma ConditionChoicesSplitSection(id: string, title: string, qs1: seq<Question>, qs2: seq<Question>, selfId: string)
    ensures ConditionChoices([Section(id, title, qs1 + qs2)], selfId) ==
      ConditionChoices([Section(id, title, qs1)], selfId) + ConditionChoices([Section(id, title, qs2)], selfId)
  {
    var s1, s2 := Section(id, title, qs1), Section(id, title, qs2);
    assert Flatten([Section(id, title, qs1 + qs2)]) == Flatten([s1, s2]) by {
      assert [s1, s2][..1] == [s1];
      assert [s1][..0] == [];
      assert [Section(id, title, qs1 + qs2)][..0] == [];
    }
    ConditionChoicesConcat([s1], [s2], selfId);
    assert [s1] + [s2] == [s1, s2];
  }

  /** A question contributes its id, unless it is the one being edited. */
  lemma ConditionChoicesOneQuestion(id: string, title: string, q: Question, selfId: string)
    ensures ConditionChoices([Section(id, title, [q])], selfId) == if q.id == selfId then [] else [q.id]
  {
    assert [Section(id, title, [q])][..0] == [];
    assert Flatten([Section(id, title, [q])]) == [q];
    OthersConcat([], [q], selfId);
  }

  /** A condition picked from the offered choices never refers to the question
      being edited ("" is the "Show always" entry, not a question). */
  lemma PickedConditionIsNotSelf(sections: seq<Section>, q: Question, choice: string)
    requires choice != "" && choice in ConditionChoices(sections, q.id)
    ensures PickCondition(q, choice).condition.Some?
    ensures PickCondition(q, choice).condition.value.questionId != q.id
  {
  }
}
