/** Entities of the hiring tracker (src/types/index.ts).
    Timestamps are opaque ordered integers; ids are strings handed in by the caller. */
module Types {

  datatype Option<T> = None | Some(value: T)

  // ---------------- Jobs ----------------

  datatype JobStatus = Active | Archived

  function StatusName(s: JobStatus): string {
    match s
    case Active => "active"
    case Archived => "archived"
  }

  /** A job row. `status` is optional because a job created through the API copies
      the request body, and the create form sends no status. */
  datatype Job = Job(
    id: string,
    title: string,
    slug: string,
    status: Option<JobStatus>,
    tags: seq<string>,
    order: int,
    createdAt: int,
    updatedAt: Option<int>)

  // ---------------- Candidates ----------------

  datatype Stage = Applied | Screen | Tech | Offer | Hired | Rejected

  function StageName(s: Stage): string {
    match s
    case Applied => "applied"
    case Screen => "screen"
    case Tech => "tech"
    case Offer => "offer"
    case Hired => "hired"
    case Rejected => "rejected"
  }

  datatype Candidate = Candidate(
    id: string,
    name: string,
    email: string,
    jobId: Option<string>,
    stage: Stage,
    createdAt: int)

  datatype EventKind = StageEvent | NoteEvent

  datatype TimelineEvent = TimelineEvent(
    id: string,
    candidateId: string,
    kind: EventKind,
    note: string,
    ts: int)

  // ---------------- Assessments ----------------

  datatype QuestionType = Single | Multi | Short | Long | Numeric | FileUpload

  /** `condition.equals` is always a string: the editor only ever writes text into it. */
  datatype Condition = Condition(questionId: string, equals: string)

  /** `numericRange`; an absent range behaves as one with both bounds absent. */
  datatype Range = Range(min: Option<int>, max: Option<int>)

  /** An assessment question. An absent `options` behaves as the empty list and an
      absent `required` as false, which is how every reader treats them. */
  datatype Question = Question(
    id: string,
    qtype: QuestionType,
    text: string,
    options: seq<string>,
    required: bool,
    condition: Option<Condition>,
    range: Range,
    maxLength: Option<int>)

  datatype Section = Section(id: string, title: string, questions: seq<Question>)

  datatype Assessment = Assessment(
    jobId: string,
    title: string,
    sections: seq<Section>,
    updatedAt: Option<int>)

  /** The shapes a stored answer takes: nothing stored, text, a number, the list of
      ticked options, an uploaded file object, or null (file input cleared). */
  datatype Answer = Undef | Str(s: string) | Num(n: int) | Arr(items: seq<string>) | Upload | Null

  type Answers = map<string, Answer>

  /** `answers[id]`: a missing key reads as undefined. */
  function Lookup(answers: Answers, id: string): Answer {
    if id in answers then answers[id] else Undef
  }

  /** Every question of every section, sections in order, questions in order. */
  function Flatten(sections: seq<Section>): seq<Question> {
    if |sections| == 0 then []
    else Flatten(sections[..|sections| - 1]) + sections[|sections| - 1].questions
  }

  /** Joining section lists joins their question lists. */
  lemma {:induction false} FlattenConcat(a: seq<Section>, b: seq<Section>)
    ensures Flatten(a + b) == Flatten(a) + Flatten(b)
    decreases |b|
  {
    if |b| == 0 {
      assert a + b == a;
    } else {
      var n := |b| - 1;
      assert (a + b)[..|a + b| - 1] == a + b[..n];
      FlattenConcat(a, b[..n]);
    }
  }
}
