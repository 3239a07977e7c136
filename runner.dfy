/** The assessment runner (src/pages/Assessments/Runner.tsx): which questions are
    shown for the current answers, and the validation run before submitting. */
module Runner {
  import opened Types
  import Strings
  import Sequences

  // ---------------- Visibility ----------------

  /** `shouldShowQuestion`: no condition means shown; otherwise the stored answer
      of the referenced question must be strictly equal to the condition's text.
      Strict equality against a string holds only for that very string. */
  predicate ShouldShow(q: Question, answers: Answers) {
    match q.condition
    case None => true
    case Some(c) => Lookup(answers, c.questionId) == Str(c.equals)
  }

  /** The visibility rule, stated answer shape by answer shape: an unconditioned
      question is shown; a conditioned one is shown exactly when the referenced
      answer is the text `equals`, so a number, an option list, a file, null or
      a missing answer never shows it. */
  lemma ShowRule(q: Question, answers: Answers)
    ensures q.condition.None? ==> ShouldShow(q, answers)
    ensures q.condition.Some? ==>
      (ShouldShow(q, answers) <==>
        Lookup(answers, q.condition.value.questionId).Str? &&
        Lookup(answers, q.condition.value.questionId).s == q.condition.value.equals)
    ensures q.condition.Some? && !Lookup(answers, q.condition.value.questionId).Str? ==>
      !ShouldShow(q, answers)
  {
  }

  /** Single hop: visibility reads only the referenced answer, never whether the
      referenced question is itself shown, so two answer sets that agree on that
      one answer agree on the visibility. */
  lemma VisibilityIsSingleHop(q: Question, a1: Answers, a2: Answers)
    requires q.condition.Some?
    requires Lookup(a1, q.condition.value.questionId) == Lookup(a2, q.condition.value.questionId)
    ensures ShouldShow(q, a1) == ShouldShow(q, a2)
  {
  }

  /** A hidden question whose stale answer still matches keeps its dependant
      shown: hiding `parent` does not hide `child`. */
  lemma HiddenParentCanShowChild()
    ensures
      var parent := Question("p", Short, "", [], false, Some(Condition("x", "yes")), Range(None, None), None);
      var child := Question("c", Short, "", [], false, Some(Condition("p", "go")), Range(None, None), None);
      var answers := map["x" := Str("no"), "p" := Str("go")];
      !ShouldShow(parent, answers) && ShouldShow(child, answers)
  {
  }

  // ---------------- Validation ----------------

  datatype ValidationError = Required | BelowMin(min: int) | AboveMax(max: int) | TooLong(maxLength: int)

  /** The text stored in the error map for each error. */
  function Message(e: ValidationError): string {
    match e
    case Required => "This question is required"
    case BelowMin(m) => "Minimum value is " + Strings.IntToString(m)
    case AboveMax(m) => "Maximum value is " + Strings.IntToString(m)
    case TooLong(m) => "Max length is " + Strings.IntToString(m)
  }

  type Errors = map<string, ValidationError>

  /** `val === undefined || val === ""`. */
  predicate IsBlank(a: Answer) {
    a == Undef || a == Str("")
  }

  /** `val?.length`: strings and arrays have one, every other shape reads
      undefined. A string's length is counted in UTF-16 code units. */
  function LengthOf(a: Answer): Option<int> {
    match a
    case Str(s) => Some(Strings.Utf16Length(s))
    case Arr(xs) => Some(|xs|)
    case _ => None
  }

  predicate RequiredFires(q: Question, val: Answer) {
    q.required && IsBlank(val)
  }

  predicate MinFires(q: Question, val: Answer) {
    q.qtype == Numeric && !IsBlank(val) && q.range.min.Some? && val.Num? && val.n < q.range.min.value
  }

  predicate MaxFires(q: Question, val: Answer) {
    q.qtype == Numeric && !IsBlank(val) && q.range.max.Some? && val.Num? && val.n > q.range.max.value
  }

  /** `q.maxLength && val?.length > q.maxLength`: a zero or absent limit is off,
      and an answer without a length never exceeds it. */
  predicate LengthFires(q: Question, val: Answer) {
    (q.qtype == Short || q.qtype == Long) && q.maxLength.Some? && q.maxLength.value != 0
    && LengthOf(val).Some? && LengthOf(val).value > q.maxLength.value
  }

  /** One step of `validate`: the four checks of one question, in source order,
      each assignment overwriting the entry the previous one wrote. */
  function CheckQuestion(q: Question, answers: Answers, errs: Errors): Errors {
    if !ShouldShow(q, answers) then errs
    else
      var val := Lookup(answers, q.id);
      var e1 := if RequiredFires(q, val) then errs[q.id := Required] else errs;
      var e2 := if MinFires(q, val) then e1[q.id := BelowMin(q.range.min.value)] else e1;
      var e3 := if MaxFires(q, val) then e2[q.id := AboveMax(q.range.max.value)] else e2;
      if LengthFires(q, val) then e3[q.id := TooLong(q.maxLength.value)] else e3
  }

  /** The error a question gets, as the last applicable check: length beats
      maximum, maximum beats minimum, minimum beats required. */
  function QuestionError(q: Question, answers: Answers): Option<ValidationError> {
    var val := Lookup(answers, q.id);
    if !ShouldShow(q, answers) then None
    else if LengthFires(q, val) then Some(TooLong(q.maxLength.value))
    else if MaxFires(q, val) then Some(AboveMax(q.range.max.value))
    else if MinFires(q, val) then Some(BelowMin(q.range.min.value))
    else if RequiredFires(q, val) then Some(Required)
    else None
  }

  /** A question leaves at most one entry, under its own id, holding its last
      applicable error, and touches no other entry. */
  lemma CheckQuestionLastWins(q: Question, answers: Answers, errs: Errors)
    ensures CheckQuestion(q, answers, errs) ==
      if QuestionError(q, answers).Some? then errs[q.id := QuestionError(q, answers).value] else errs
  {
  }

  /** `validate` over the questions of all sections, in order, from an empty map. */
  function ValidateQuestions(qs: seq<Question>, answers: Answers): Errors {
    if |qs| == 0 then map[]
    else CheckQuestion(qs[|qs| - 1], answers, ValidateQuestions(qs[..|qs| - 1], answers))
  }

  function ValidateSections(sections: seq<Section>, answers: Answers): Errors {
    ValidateQuestions(Flatten(sections), answers)
  }

  /** Every key of the error map is the id of a shown question that has an error. */
  lemma {:induction false} ErrorKeysAreShownQuestions(qs: seq<Question>, answers: Answers, k: string)
    requires k in ValidateQuestions(qs, answers)
    ensures exists i :: (0 <= i < |qs| && qs[i].id == k && ShouldShow(qs[i], answers)
      && QuestionError(qs[i], answers).Some?)
  {
    var n := |qs| - 1;
    CheckQuestionLastWins(qs[n], answers, ValidateQuestions(qs[..n], answers));
    if k == qs[n].id && QuestionError(qs[n], answers).Some? {
      assert ShouldShow(qs[n], answers);
    } else {
      ErrorKeysAreShownQuestions(qs[..n], answers, k);
      var i :| 0 <= i < n && qs[..n][i].id == k && ShouldShow(qs[..n][i], answers)
        && QuestionError(qs[..n][i], answers).Some?;
      assert qs[i] == qs[..n][i];
    }
  }

  /** Every question with an error leaves an entry under its id. */
  lemma {:induction false} ErroneousQuestionsHaveKeys(qs: seq<Question>, answers: Answers, i: nat)
    requires i < |qs| && QuestionError(qs[i], answers).Some?
    ensures qs[i].id in ValidateQuestions(qs, answers)
  {
    var n := |qs| - 1;
    CheckQuestionLastWins(qs[n], answers, ValidateQuestions(qs[..n], answers));
    if i < n {
      assert qs[..n][i] == qs[i];
      ErroneousQuestionsHaveKeys(qs[..n], answers, i);
    }
  }

  predicate UniqueIds(qs: seq<Question>) {
    forall i, j :: 0 <= i < j < |qs| ==> qs[i].id != qs[j].id
  }

  /** With distinct question ids (they are fresh uuids) the entry under a
      question's id is exactly that question's last applicable error. */
  lemma {:induction false} ErrorOfEachQuestion(qs: seq<Question>, answers: Answers, i: nat)
    requires UniqueIds(qs) && i < |qs|
    ensures qs[i].id in ValidateQuestions(qs, answers) <==> QuestionError(qs[i], answers).Some?
    ensures qs[i].id in ValidateQuestions(qs, answers) ==>
      ValidateQuestions(qs, answers)[qs[i].id] == QuestionError(qs[i], answers).value
  {
    var n := |qs| - 1;
    var prev := ValidateQuestions(qs[..n], answers);
    CheckQuestionLastWins(qs[n], answers, prev);
    if i < n {
      assert qs[..n][i] == qs[i];
      ErrorOfEachQuestion(qs[..n], answers, i);
      assert qs[i].id != qs[n].id;
    } else {
      assert forall j :: 0 <= j < n ==> qs[..n][j].id != qs[n].id;
      if qs[n].id in prev {
        ErrorKeysAreShownQuestions(qs[..n], answers, qs[n].id);
      }
    }
  }

  /** The map is empty exactly when no question has an error, so a hidden
      question's rule violations never block submission. */
  lemma ValidIffNoQuestionError(qs: seq<Question>, answers: Answers)
    ensures ValidateQuestions(qs, answers) == map[] <==>
      forall i :: 0 <= i < |qs| ==> QuestionError(qs[i], answers).None?
  {
    var errs := ValidateQuestions(qs, answers);
    if errs != map[] {
      var k :| k in errs;
      ErrorKeysAreShownQuestions(qs, answers, k);
    }
    forall i | 0 <= i < |qs| && QuestionError(qs[i], answers).Some? ensures errs != map[] {
      ErroneousQuestionsHaveKeys(qs, answers, i);
    }
  }

  /** The required check fires on undefined and on "" only: an empty option list
      or a null file passes. It yields the reported error unless the length
      check also fires, which only a negative `maxLength` allows. */
  lemma RequiredRule(q: Question, answers: Answers)
    requires ShouldShow(q, answers) && q.required
    ensures QuestionError(q, answers) == Some(Required) <==>
      IsBlank(Lookup(answers, q.id)) && !LengthFires(q, Lookup(answers, q.id))
    ensures Lookup(answers, q.id) == Arr([]) || Lookup(answers, q.id) == Null ==>
      QuestionError(q, answers) != Some(Required)
    ensures LengthFires(q, Lookup(answers, q.id)) && IsBlank(Lookup(answers, q.id)) ==>
      q.maxLength.value < 0
  {
  }

  /** The length check runs last, so with a negative limit it replaces the
      required error of an empty text answer. */
  lemma LengthOverridesRequired()
    ensures
      var q := Question("q", Short, "", [], true, None, Range(None, None), Some(-1));
      QuestionError(q, map["q" := Str("")]) == Some(TooLong(-1))
  {
  }

  /** The length limit counts UTF-16 code units: three emoji are six units, so
      they exceed a limit of 5 although they are three characters. */
  lemma AstralTextExceedsLimit()
    ensures
      var q := Question("q", Short, "", [], false, None, Range(None, None), Some(5));
      QuestionError(q, map["q" := Str("\U{1F600}\U{1F600}\U{1F600}")]) == Some(TooLong(5))
  {
    var s := "\U{1F600}\U{1F600}\U{1F600}";
    assert s[1..][1..][1..] == "";
    assert Strings.Utf16Length(s) == 6;
  }

  /** The numeric checks: a number below `min` or above `max` is reported, an
      absent bound is not checked, and a blank answer is only ever a required
      error. With `min <= max` the two bound checks never both fire. */
  lemma NumericRule(q: Question, answers: Answers)
    requires ShouldShow(q, answers) && q.qtype == Numeric
    ensures var val := Lookup(answers, q.id);
      && (QuestionError(q, answers).Some? && QuestionError(q, answers).value.AboveMax? <==>
            val.Num? && q.range.max.Some? && val.n > q.range.max.value)
      && (QuestionError(q, answers).Some? && QuestionError(q, answers).value.BelowMin? <==>
            val.Num? && q.range.min.Some? && val.n < q.range.min.value
            && !(q.range.max.Some? && val.n > q.range.max.value))
      && (IsBlank(val) ==> QuestionError(q, answers) == (if q.required then Some(Required) else None))
      && (q.range.min.Some? && q.range.max.Some? && q.range.min.value <= q.range.max.value ==>
            !(MinFires(q, val) && MaxFires(q, val)))
  {
  }

  /** A number never satisfies a condition, since the condition's value is text:
      a question conditioned on a numeric answer stays hidden. */
  lemma NumericAnswerNeverSatisfiesCondition(q: Question, answers: Answers)
    requires q.condition.Some? && Lookup(answers, q.condition.value.questionId).Num?
    ensures !ShouldShow(q, answers)
  {
  }

  /** A numeric question with range 1..10 answered 12 gets the maximum error; a
      question conditioned on it being 5 is hidden and not validated. */
  lemma RangeScenario()
    ensures
      var q1 := Question("q1", Numeric, "", [], true, None, Range(Some(1), Some(10)), None);
      var q2 := Question("q2", Short, "", [], true, Some(Condition("q1", "5")), Range(None, None), None);
      var answers := map["q1" := Num(12)];
      ValidateQuestions([q1, q2], answers) == map["q1" := AboveMax(10)]
  {
    var q1 := Question("q1", Numeric, "", [], true, None, Range(Some(1), Some(10)), None);
    var q2 := Question("q2", Short, "", [], true, Some(Condition("q1", "5")), Range(None, None), None);
    var answers := map["q1" := Num(12)];
    assert [q1, q2][..1] == [q1];
    assert [q1][..0] == [];
    assert ValidateQuestions([q1], answers) == CheckQuestion(q1, answers, map[]);
    assert CheckQuestion(q1, answers, map[]) == map["q1" := AboveMax(10)];
    assert !ShouldShow(q2, answers);
  }

  lemma {:induction false} FlattenAppend(sections: seq<Section>, si: nat)
    requires si < |sections|
    ensures Flatten(sections[..si + 1]) == Flatten(sections[..si]) + sections[si].questions
  {
    assert sections[..si + 1][..si] == sections[..si];
  }

  lemma {:induction false} ValidateAppend(qs: seq<Question>, q: Question, answers: Answers)
    ensures ValidateQuestions(qs + [q], answers) == CheckQuestion(q, answers, ValidateQuestions(qs, answers))
  {
    assert (qs + [q])[..|qs|] == qs;
  }

  /** The body of `validate`'s inner loop: the four checks of one shown
      question, each overwriting the entry the previous one wrote. */
  method CheckOne(q: Question, answers: Answers, errs: Errors) returns (errors: Errors)
    ensures errors == (if QuestionError(q, answers).Some? then errs[q.id := QuestionError(q, answers).value] else errs)
  {
    errors := errs;
    if ShouldShow(q, answers) {
      var val := Lookup(answers, q.id);
      if q.required && (val == Undef || val == Str("")) {
        errors := errors[q.id := Required];
      }
      if q.qtype == Numeric && val != Undef && val != Str("") {
        if q.range.min.Some? && val.Num? && val.n < q.range.min.value {
          errors := errors[q.id := BelowMin(q.range.min.value)];
        }
        if q.range.max.Some? && val.Num? && val.n > q.range.max.value {
          errors := errors[q.id := AboveMax(q.range.max.value)];
        }
      }
      if (q.qtype == Short || q.qtype == Long) && q.maxLength.Some? && q.maxLength.value != 0
        && LengthOf(val).Some? && LengthOf(val).value > q.maxLength.value
      {
        errors := errors[q.id := TooLong(q.maxLength.value)];
      }
    }
    assert errors == CheckQuestion(q, answers, errs);
    CheckQuestionLastWins(q, answers, errs);
  }

  /** Validating one more question of the current section. */
  lemma ValidatePrefixStep(done: seq<Question>, qs: seq<Question>, qi: nat, answers: Answers)
    requires qi < |qs|
    ensures ValidateQuestions(done + qs[..qi + 1], answers) ==
      CheckQuestion(qs[qi], answers, ValidateQuestions(done + qs[..qi], answers))
  {
    assert done + qs[..qi + 1] == done + qs[..qi] + [qs[qi]];
    ValidateAppend(done + qs[..qi], qs[qi], answers);
  }

  /** `validate`: walks the sections and their questions in order and fills the
      error map; it reports success exactly when the map is empty, that is when
      no question has an error. */
  method Validate(assessment: Option<Assessment>, answers: Answers) returns (errors: Errors, ok: bool)
    ensures assessment.None? ==> errors == map[]
    ensures assessment.Some? ==> errors == ValidateSections(assessment.value.sections, answers)
    ensures ok <==> errors == map[]
    ensures assessment.Some? ==>
      (ok <==> forall i :: 0 <= i < |Flatten(assessment.value.sections)| ==>
                 QuestionError(Flatten(assessment.value.sections)[i], answers).None?)
  {
    errors := map[];
    var sections := if assessment.Some? then assessment.value.sections else [];
    var si := 0;
    while si < |sections|
      invariant 0 <= si <= |sections|
      invariant errors == ValidateQuestions(Flatten(sections[..si]), answers)
    {
      var qs := sections[si].questions;
      ghost var done := Flatten(sections[..si]);
      var qi := 0;
      assert done + qs[..qi] == done;
      while qi < |qs|
        invariant 0 <= qi <= |qs|
        invariant errors == ValidateQuestions(done + qs[..qi], answers)
      {
        ValidatePrefixStep(done, qs, qi, answers);
        CheckQuestionLastWins(qs[qi], answers, errors);
        errors := CheckOne(qs[qi], answers, errors);
        qi := qi + 1;
      }
      FlattenAppend(sections, si);
      assert qs[..qi] == qs;
      si := si + 1;
    }
    assert sections[..si] == sections;
    ok := |errors| == 0;
    if assessment.Some? {
      ValidIffNoQuestionError(Flatten(sections), answers);
    }
  }

  /** `handleSubmit`: submission goes ahead only when validation passes. */
  method HandleSubmit(assessment: Option<Assessment>, answers: Answers) returns (errors: Errors, submitted: bool)
    ensures submitted <==> errors == map[]
    ensures assessment.Some? ==> errors == ValidateSections(assessment.value.sections, answers)
  {
    var ok;
    errors, ok := Validate(assessment, answers);
    submitted := ok;
  }

  // ---------------- Answer shapes written by the inputs ----------------

  /** `handleChange(qid, value)`: only that question's answer changes. */
  function SetAnswer(answers: Answers, qid: string, value: Answer): (r: Answers)
    ensures Lookup(r, qid) == value
    ensures forall k :: k != qid ==> Lookup(r, k) == Lookup(answers, k)
  {
    answers[qid := value]
  }

  /** A multi-choice tick: the option is appended to the current list; an untick
      drops every occurrence of it and keeps the rest in order. A current answer
      that is not a list counts as the empty list. */
  function ToggleMulti(current: Answer, opt: string, checked: bool): (r: Answer)
    ensures r.Arr?
    ensures checked ==> r.items == (if current.Arr? then current.items else []) + [opt]
    ensures !checked ==> opt !in r.items
    ensures !checked ==> multiset(r.items) == multiset(if current.Arr? then current.items else [])[opt := 0]
    ensures !checked && current.Arr? && opt !in current.items ==> r.items == current.items
  {
    var prev := if current.Arr? then current.items else [];
    if checked then Arr(prev + [opt])
    else
      Sequences.FilterMultiset(prev, (v: string) => v != opt);
      if opt !in prev then
        Sequences.FilterAll(prev, (v: string) => v != opt);
        Arr(Sequences.Filter(prev, (v: string) => v != opt))
      else Arr(Sequences.Filter(prev, (v: string) => v != opt))
  }

  /** Unticking keeps the other options in the order they were ticked: it works
      piece by piece, dropping the unticked option and keeping every other. */
  lemma UntickKeepsOrder(a: seq<string>, b: seq<string>, opt: string, x: string)
    ensures ToggleMulti(Arr(a + b), opt, false).items ==
      ToggleMulti(Arr(a), opt, false).items + ToggleMulti(Arr(b), opt, false).items
    ensures ToggleMulti(Arr([x]), opt, false).items == if x == opt then [] else [x]
  {
    Sequences.FilterConcat(a, b, (v: string) => v != opt);
    Sequences.FilterSnoc([], x, (v: string) => v != opt);
    assert [] + [x] == [x];
  }

  /** Ticking an option that was not ticked and unticking it again restores the list. */
  lemma TickUntick(prev: seq<string>, opt: string)
    requires opt !in prev
    ensures ToggleMulti(ToggleMulti(Arr(prev), opt, true), opt, false) == Arr(prev)
  {
    Sequences.FilterSnoc(prev, opt, (v: string) => v != opt);
    Sequences.FilterAll(prev, (v: string) => v != opt);
  }

  /** The file input stores the chosen file, or null when none is chosen. */
  function FileAnswer(chosen: bool): (r: Answer)
    ensures r == Upload || r == Null
    ensures LengthOf(r).None? && !IsBlank(r)
  {
    if chosen then Upload else Null
  }
}
