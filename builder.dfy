/** The assessment builder (src/pages/Assessments/Builder.tsx): the sections
    being edited, the preview's answers, and the edits and save that change them. */
module Builder {
  import opened Types
  import opened Sequences
  import Runner
  import Handlers

  /** The question `addQuestion` appends: a short text question with no text,
      not required and without a condition. */
  function NewQuestion(id: string): Question {
    Question(id, Short, "", [], false, None, Range(None, None), None)
  }

  /** The preview's `shouldShowQuestion`, written out again in the builder. */
  predicate PreviewShows(q: Question, answers: Answers) {
    if q.condition.None? then true
    else
      var parentAnswer := Lookup(answers, q.condition.value.questionId);
      parentAnswer == Str(q.condition.value.equals)
  }

  /** The preview shows exactly the questions the runner shows. */
  lemma PreviewAgreesWithRunner(q: Question, answers: Answers)
    ensures PreviewShows(q, answers) <==> Runner.ShouldShow(q, answers)
  {
  }

  /** `Array.prototype.indexOf`: the first position holding `x`, or -1. */
  function IndexOf(s: seq<string>, x: string): (r: int)
    ensures -1 <= r < |s|
    ensures r >= 0 ==> s[r] == x && x !in s[..r]
    ensures r == -1 <==> x !in s
  {
    if |s| == 0 then -1
    else if s[0] == x then 0
    else
      var r := IndexOf(s[1..], x);
      assert s[1..][..r + 1] == s[1..r + 2] by {
        if r >= 0 { assert s[1..][..r + 1] == s[1..][..r] + [s[1..][r]]; }
      }
      if r == -1 then -1 else r + 1
  }

  /** `arr.splice(start, 1)`: a negative start counts from the end; a start at
      or past the end removes nothing. */
  function SpliceOne(s: seq<string>, start: int): (r: seq<string>)
    ensures 0 <= start < |s| ==> r == s[..start] + s[start + 1..]
    ensures -|s| <= start < 0 ==> r == s[..|s| + start] + s[|s| + start + 1..]
    ensures start < -|s| ==> r == if |s| > 0 then s[1..] else s
    ensures start >= |s| ==> r == s
  {
    var k := ClampIndex(start, |s|);
    if k < |s| then RemoveAt(s, k) else s
  }

  /** The preview's untick: `arr.splice(arr.indexOf(opt), 1)`. The first
      occurrence of the option goes and the rest keep their order; an option
      that is not there makes `indexOf` give -1, so the last element goes. */
  function PreviewUntick(arr: seq<string>, opt: string): (r: seq<string>)
    ensures opt in arr ==>
      var i := IndexOf(arr, opt);
      r == arr[..i] + arr[i + 1..]
    ensures opt in arr ==> multiset(r) == multiset(arr) - multiset{opt}
    ensures opt !in arr ==> r == if |arr| > 0 then arr[..|arr| - 1] else []
  {
    var i := IndexOf(arr, opt);
    if i >= 0 then
      assert arr == arr[..i] + [opt] + arr[i + 1..];
      SpliceOne(arr, i)
    else
      assert arr[|arr|..] == [];
      SpliceOne(arr, i)
  }

  /** The preview's multi-choice checkbox: ticking appends the option, unticking
      removes the first occurrence found by `indexOf`. */
  function PreviewToggleMulti(current: Answer, opt: string, checked: bool): (r: Answer)
    ensures r.Arr?
    ensures checked ==> r.items == (if current.Arr? then current.items else []) + [opt]
    ensures !checked && current.Arr? && opt in current.items ==>
      var i := IndexOf(current.items, opt);
      r.items == current.items[..i] + current.items[i + 1..]
    ensures !checked && !(current.Arr? && opt in current.items) ==>
      var arr := if current.Arr? then current.items else [];
      r.items == if |arr| > 0 then arr[..|arr| - 1] else []
  {
    var arr := if current.Arr? then current.items else [];
    if checked then Arr(arr + [opt]) else Arr(PreviewUntick(arr, opt))
  }

  /** Unticking removes one occurrence, where the runner removes them all: with
      a duplicated option the preview keeps one, the runner none. */
  lemma PreviewUntickKeepsDuplicate()
    ensures PreviewToggleMulti(Arr(["a", "a"]), "a", false) == Arr(["a"])
    ensures Runner.ToggleMulti(Arr(["a", "a"]), "a", false) == Arr([])
  {
    assert ["a", "a"][1..] == ["a"];
    assert ["a"][1..] == [];
  }

  /** Ticking an unticked option and unticking it again restores the list. */
  lemma PreviewTickUntick(prev: seq<string>, opt: string)
    requires opt !in prev
    ensures PreviewToggleMulti(PreviewToggleMulti(Arr(prev), opt, true), opt, false) == Arr(prev)
  {
    var arr := prev + [opt];
    assert IndexOf(arr, opt) == |prev| by {
      assert arr[|prev|] == opt;
      assert forall i :: 0 <= i < |prev| ==> arr[i] == prev[i];
    }
    assert RemoveAt(arr, |prev|) == prev;
  }

  /** Unticking an option that is not ticked drops the last option, because
      `indexOf` gives -1 and `splice(-1, 1)` removes the last element. */
  lemma PreviewUntickAbsentDropsLast(prev: seq<string>, opt: string)
    requires opt !in prev && |prev| > 0
    ensures PreviewToggleMulti(Arr(prev), opt, false) == Arr(prev[..|prev| - 1])
  {
  }

  /** The preview's numeric input: an empty field stores "", a number stores it. */
  function PreviewNumeric(input: Option<int>): (r: Answer)
    ensures input.None? <==> r == Str("")
    ensures input.Some? ==> r == Num(input.value)
  {
    if input.Some? then Num(input.value) else Str("")
  }

  /** Clearing the preview's numeric field leaves an answer the runner treats as blank. */
  lemma ClearedNumericIsBlank()
    ensures Runner.IsBlank(PreviewNumeric(None))
  {
  }

  /** Replacing one section replaces its stretch of the question list. */
  lemma FlattenUpdate(sections: seq<Section>, si: nat, s: Section)
    requires si < |sections|
    ensures Flatten(sections[si := s]) ==
      Flatten(sections[..si]) + s.questions + Flatten(sections[si + 1..])
  {
    var t := sections[si := s];
    assert t == t[..si] + [s] + t[si + 1..];
    assert t[..si] == sections[..si] && t[si + 1..] == sections[si + 1..];
    FlattenConcat(t[..si] + [s], t[si + 1..]);
    FlattenConcat(t[..si], [s]);
    assert [s][..0] == [];
  }

  class AssessmentBuilder {
    /** The route's job id; "" when the route has none. */
    var jobId: string
    var sections: seq<Section>
    var answers: Answers

    constructor (jobId: string)
      ensures this.jobId == jobId && sections == [] && answers == map[]
    {
      this.jobId := jobId;
      sections := [];
      answers := map[];
    }

    /** The load effect: the saved sections, or none when nothing is saved. */
    method Load(db: Handlers.Database)
      modifies this
      ensures jobId == old(jobId) && answers == old(answers)
      ensures jobId == "" ==> sections == old(sections)
      ensures jobId != "" ==>
        sections == if jobId in db.assessments then db.assessments[jobId].sections else []
    {
      if jobId == "" {
        return;
      }
      if jobId in db.assessments {
        sections := db.assessments[jobId].sections;
      } else {
        sections := [];
      }
    }

    /** `addSection`: one untitled, empty section at the end. */
    method AddSection(freshId: string)
      modifies this
      ensures jobId == old(jobId) && answers == old(answers)
      ensures sections == old(sections) + [Section(freshId, "Untitled Section", [])]
      ensures Flatten(sections) == Flatten(old(sections))
    {
      sections := sections + [Section(freshId, "Untitled Section", [])];
      FlattenConcat(old(sections), [Section(freshId, "Untitled Section", [])]);
      assert [Section(freshId, "Untitled Section", [])][..0] == [];
    }

    /** `updateSectionTitle`: only that section's title changes. */
    method UpdateSectionTitle(si: nat, title: string)
      requires si < |sections|
      modifies this
      ensures jobId == old(jobId) && answers == old(answers)
      ensures sections == old(sections)[si := old(sections)[si].(title := title)]
      ensures Flatten(sections) == Flatten(old(sections))
    {
      sections := sections[si := sections[si].(title := title)];
      FlattenUpdate(old(sections), si, sections[si]);
      FlattenUpdate(old(sections), si, old(sections)[si]);
      assert old(sections)[si := old(sections)[si]] == old(sections);
    }

    /** `addQuestion(si)`: a new question at the end of section `si`; the
        question list grows by that one question, just after the section's
        others. */
    method AddQuestion(si: nat, freshId: string)
      requires si < |sections|
      modifies this
      ensures jobId == old(jobId) && answers == old(answers)
      ensures |sections| == |old(sections)|
      ensures sections[si] == old(sections)[si].(questions := old(sections)[si].questions + [NewQuestion(freshId)])
      ensures forall j :: 0 <= j < |sections| && j != si ==> sections[j] == old(sections)[j]
      ensures Flatten(sections) ==
        Flatten(old(sections)[..si + 1]) + [NewQuestion(freshId)] + Flatten(old(sections)[si + 1..])
    {
      var s := sections[si];
      sections := sections[si := s.(questions := s.questions + [NewQuestion(freshId)])];
      FlattenUpdate(old(sections), si, sections[si]);
      FlattenAppendOne(old(sections), si);
    }

    /** `updateQuestion(si, qi, q)`: only that question is replaced. */
    method UpdateQuestion(si: nat, qi: nat, q: Question)
      requires si < |sections| && qi < |sections[si].questions|
      modifies this
      ensures jobId == old(jobId) && answers == old(answers)
      ensures |sections| == |old(sections)|
      ensures sections[si] == old(sections)[si].(questions := old(sections)[si].questions[qi := q])
      ensures forall j :: 0 <= j < |sections| && j != si ==> sections[j] == old(sections)[j]
      ensures |Flatten(sections)| == |Flatten(old(sections))|
    {
      var s := sections[si];
      sections := sections[si := s.(questions := s.questions[qi := q])];
      FlattenUpdate(old(sections), si, sections[si]);
      FlattenUpdate(old(sections), si, old(sections)[si]);
      assert old(sections)[si := old(sections)[si]] == old(sections);
    }

    /** `removeQuestion(si, qi)`: that question is spliced out of its section,
        the later ones move down by one. */
    method RemoveQuestion(si: nat, qi: nat)
      requires si < |sections| && qi < |sections[si].questions|
      modifies this
      ensures jobId == old(jobId) && answers == old(answers)
      ensures |sections| == |old(sections)|
      ensures sections[si] == old(sections)[si].(questions := RemoveAt(old(sections)[si].questions, qi))
      ensures forall j :: 0 <= j < |sections| && j != si ==> sections[j] == old(sections)[j]
      ensures |Flatten(sections)| == |Flatten(old(sections))| - 1
    {
      var s := sections[si];
      sections := sections[si := s.(questions := RemoveAt(s.questions, qi))];
      FlattenUpdate(old(sections), si, sections[si]);
      FlattenUpdate(old(sections), si, old(sections)[si]);
      assert old(sections)[si := old(sections)[si]] == old(sections);
    }

    /** A preview input writes one answer. */
    method SetPreviewAnswer(qid: string, value: Answer)
      modifies this
      ensures jobId == old(jobId) && sections == old(sections)
      ensures answers == old(answers)[qid := value]
    {
      answers := answers[qid := value];
    }

    /** `saveAssessment`: without a job id nothing happens; otherwise the
        current sections are stored under the job id, titled
        "Assessment for <jobId>". */
    method Save(db: Handlers.Database, now: int)
      requires db.Valid()
      modifies db
      ensures db.Valid()
      ensures db.jobs == old(db.jobs) && db.candidates == old(db.candidates) && db.timelines == old(db.timelines)
      ensures jobId == "" ==> db.assessments == old(db.assessments)
      ensures jobId != "" ==>
        db.assessments == old(db.assessments)[jobId := Assessment(jobId, "Assessment for " + jobId, sections, Some(now))]
    {
      if jobId == "" {
        return;
      }
      var assessment := Assessment(jobId, "Assessment for " + jobId, sections, Some(now));
      var _ := db.PutAssessment(jobId, assessment);
    }
  }

  lemma FlattenAppendOne(sections: seq<Section>, si: nat)
    requires si < |sections|
    ensures Flatten(sections[..si]) + sections[si].questions == Flatten(sections[..si + 1])
  {
    assert sections[..si + 1][..si] == sections[..si];
  }
}
