/** The candidate board (src/pages/Candidates/CandidatesList.tsx): the loaded
    candidates grouped into one column per stage, drag-and-drop between
    columns, and the add-candidate form. */
module CandidatesList {
  import opened Types
  import opened Sequences
  import Strings
  import Handlers

  /** The six columns, left to right. */
  const Stages: seq<Stage> := [Applied, Screen, Tech, Offer, Hired, Rejected]

  /** Every stage has exactly one column. */
  lemma StageColumns()
    ensures |Stages| == 6
    ensures forall s: Stage :: s in Stages
    ensures forall i, j :: 0 <= i < j < |Stages| ==> Stages[i] != Stages[j]
    ensures forall i :: 0 <= i < |Stages| ==> StageName(Stages[i]) == ["applied", "screen", "tech", "offer", "hired", "rejected"][i]
  {
    forall s: Stage ensures s in Stages {
      match s
      case Applied => assert Stages[0] == s;
      case Screen => assert Stages[1] == s;
      case Tech => assert Stages[2] == s;
      case Offer => assert Stages[3] == s;
      case Hired => assert Stages[4] == s;
      case Rejected => assert Stages[5] == s;
    }
  }

  function InStage(s: Stage): Candidate -> bool {
    (c: Candidate) => c.stage == s
  }

  /** `stageMap[s]`: the candidates in stage `s`, in the order of `items`. */
  function Bucket(items: seq<Candidate>, s: Stage): (r: seq<Candidate>)
    ensures forall k :: 0 <= k < |r| ==> r[k].stage == s && r[k] in items
    ensures forall k :: 0 <= k < |items| && items[k].stage == s ==> items[k] in r
  {
    Filter(items, InStage(s))
  }

  /** Buckets of a concatenation, and of one candidate. */
  lemma BucketConcat(a: seq<Candidate>, b: seq<Candidate>, s: Stage)
    ensures Bucket(a + b, s) == Bucket(a, s) + Bucket(b, s)
  {
    FilterConcat(a, b, InStage(s));
  }

  lemma BucketOne(c: Candidate, s: Stage)
    ensures Bucket([c], s) == if c.stage == s then [c] else []
  {
    assert [c][1..] == [];
  }

  /** The columns together hold every candidate exactly once: their sizes
      add up to the number of candidates. */
  lemma {:induction false} BucketSizesSum(items: seq<Candidate>)
    ensures |Bucket(items, Applied)| + |Bucket(items, Screen)| + |Bucket(items, Tech)|
          + |Bucket(items, Offer)| + |Bucket(items, Hired)| + |Bucket(items, Rejected)| == |items|
  {
    if |items| > 0 {
      var c := items[0];
      assert items == [c] + items[1..];
      forall s: Stage ensures Bucket(items, s) == Bucket([c], s) + Bucket(items[1..], s) {
        BucketConcat([c], items[1..], s);
      }
      forall s: Stage ensures |Bucket([c], s)| == if c.stage == s then 1 else 0 {
        BucketOne(c, s);
      }
      BucketSizesSum(items[1..]);
    }
  }

  /** The position in `items` of the `j`-th card of column `s`: the drag
      library reports a card by its column and its index in that column. */
  function NthPosition(items: seq<Candidate>, s: Stage, j: nat): (k: nat)
    requires j < |Bucket(items, s)|
    ensures k < |items| && items[k].stage == s
    ensures items[k] == Bucket(items, s)[j]
    ensures |Bucket(items[..k], s)| == j
  {
    BucketCons(items, s);
    if items[0].stage == s && j == 0 then
      assert items[..0] == [];
      0
    else
      var j' := if items[0].stage == s then j - 1 else j;
      var k' := NthPosition(items[1..], s, j');
      NthPositionStep(items, s, j, j', k');
      k' + 1
  }

  /** The step of `NthPosition` past the head of the list. */
  lemma NthPositionStep(items: seq<Candidate>, s: Stage, j: nat, j': nat, k': nat)
    requires |items| > 0 && j < |Bucket(items, s)|
    requires j' == if items[0].stage == s then j - 1 else j
    requires k' < |items| - 1 && items[1..][k'].stage == s
    requires j' < |Bucket(items[1..], s)| && items[1..][k'] == Bucket(items[1..], s)[j']
    requires |Bucket(items[1..][..k'], s)| == j'
    ensures items[k' + 1].stage == s && items[k' + 1] == Bucket(items, s)[j]
    ensures |Bucket(items[..k' + 1], s)| == j
  {
    BucketCons(items, s);
    BucketConsPrefix(items, s, k');
  }

  /** The column of a non-empty list: its head, when in stage `s`, then the
      column of its tail. */
  lemma BucketCons(items: seq<Candidate>, s: Stage)
    requires |items| > 0
    ensures Bucket(items, s) == Bucket([items[0]], s) + Bucket(items[1..], s)
    ensures Bucket([items[0]], s) == if items[0].stage == s then [items[0]] else []
  {
    assert items == [items[0]] + items[1..];
    BucketConcat([items[0]], items[1..], s);
    BucketOne(items[0], s);
  }

  lemma BucketConsPrefix(items: seq<Candidate>, s: Stage, k: nat)
    requires k < |items| - 1
    ensures Bucket(items[..k + 1], s) == Bucket([items[0]], s) + Bucket(items[1..][..k], s)
  {
    assert items[..k + 1] == [items[0]] + items[1..][..k];
    BucketConcat([items[0]], items[1..][..k], s);
  }

  /** A column lists its candidates in the order of `items`. */
  lemma NthPositionIncreasing(items: seq<Candidate>, s: Stage, i: nat, j: nat)
    requires i < j < |Bucket(items, s)|
    ensures NthPosition(items, s, i) < NthPosition(items, s, j)
  {
    var ki, kj := NthPosition(items, s, i), NthPosition(items, s, j);
    if kj < ki {
      PrefixBucketGrows(items, s, kj, ki);
    }
  }

  /** A longer prefix that takes in a candidate of stage `s` has a longer
      column `s`. */
  lemma PrefixBucketGrows(items: seq<Candidate>, s: Stage, a: nat, b: nat)
    requires a < b <= |items| && items[a].stage == s
    ensures |Bucket(items[..a], s)| < |Bucket(items[..b], s)|
  {
    var pre := items[..b];
    assert pre == items[..a] + [items[a]] + pre[a + 1..];
    BucketConcat(items[..a] + [items[a]], pre[a + 1..], s);
    BucketConcat(items[..a], [items[a]], s);
    BucketOne(items[a], s);
  }

  /** The `forEach` + `push` grouping builds every column. */
  method GroupByStage(items: seq<Candidate>) returns (stageMap: map<Stage, seq<Candidate>>)
    ensures forall s: Stage :: s in stageMap && stageMap[s] == Bucket(items, s)
  {
    stageMap := map[Applied := [], Screen := [], Tech := [], Offer := [], Hired := [], Rejected := []];
    var i := 0;
    forall s: Stage ensures s in stageMap && stageMap[s] == Bucket(items[..0], s) {
      assert items[..0] == [];
      match s
      case Applied =>
      case Screen =>
      case Tech =>
      case Offer =>
      case Hired =>
      case Rejected =>
    }
    while i < |items|
      invariant 0 <= i <= |items|
      invariant forall s: Stage :: s in stageMap && stageMap[s] == Bucket(items[..i], s)
    {
      var c := items[i];
      assert items[..i + 1] == items[..i] + [c];
      forall s: Stage ensures Bucket(items[..i + 1], s) == Bucket(items[..i], s) + (if c.stage == s then [c] else []) {
        FilterSnoc(items[..i], c, InStage(s));
      }
      stageMap := stageMap[c.stage := stageMap[c.stage] + [c]];
      i := i + 1;
    }
    assert items[..i] == items;
  }

  /** Moving one candidate to another stage: that column gains the card, at
      the place the candidate holds in `items` (whatever index it was dropped
      at), the column it left loses it, and the others stay as they were. */
  lemma StageMoveColumns(items: seq<Candidate>, k: nat, dest: Stage, s: Stage)
    requires k < |items| && items[k].stage != dest
    ensures var moved := items[k := items[k].(stage := dest)];
      && (s == dest ==> |Bucket(moved, s)| == |Bucket(items, s)| + 1)
      && (s == items[k].stage ==> |Bucket(moved, s)| == |Bucket(items, s)| - 1)
      && (s != dest && s != items[k].stage ==> Bucket(moved, s) == Bucket(items, s))
    ensures var moved := items[k := items[k].(stage := dest)];
      && |Bucket(items[..k], dest)| < |Bucket(moved, dest)|
      && Bucket(moved, dest)[|Bucket(items[..k], dest)|] == items[k].(stage := dest)
  {
    var c := items[k];
    var c' := c.(stage := dest);
    var moved := items[k := c'];
    assert items == items[..k] + [c] + items[k + 1..];
    assert moved == items[..k] + [c'] + items[k + 1..];
    BucketConcat(items[..k] + [c], items[k + 1..], s);
    BucketConcat(items[..k], [c], s);
    BucketConcat(items[..k] + [c'], items[k + 1..], s);
    BucketConcat(items[..k], [c'], s);
    BucketOne(c, s);
    BucketOne(c', s);
    BucketConcat(items[..k] + [c'], items[k + 1..], dest);
    BucketConcat(items[..k], [c'], dest);
    BucketOne(c', dest);
  }

  /** Where a card was dropped: a column and an index in it. */
  datatype DropTarget = DropTarget(stage: Stage, index: nat)

  class CandidateBoard {
    var items: seq<Candidate>

    constructor (loaded: seq<Candidate>)
      ensures items == loaded
    {
      items := loaded;
    }

    /** `onDragEnd`. The spliced column copies are thrown away when the board
        re-renders from `items`, so a drop inside one column changes nothing;
        a drop onto another column sets the dragged candidate's stage (the
        candidate object is shared with `items`) and sends one stage update. */
    method OnDragEnd(db: Handlers.Database, source: Stage, sourceIndex: nat, destination: Option<DropTarget>,
                     eventId: string, now: int)
      returns (patch: Option<Handlers.Response<Candidate>>)
      requires db.Valid() && sourceIndex < |Bucket(items, source)|
      modifies this, db
      ensures db.Valid()
      ensures destination.None? || destination.value.stage == source ==>
        patch.None? && items == old(items)
        && db.candidates == old(db.candidates) && db.timelines == old(db.timelines)
      ensures destination.Some? && destination.value.stage != source ==>
        var k := NthPosition(old(items), source, sourceIndex);
        var id := old(items)[k].id;
        var dest := destination.value.stage;
        && items == old(items)[k := old(items)[k].(stage := dest)]
        && patch.Some?
        && (patch.value.Ok? <==> id != "" && exists m :: 0 <= m < |old(db.candidates)| && old(db.candidates)[m].id == id)
        && (patch.value.Ok? ==>
              db.timelines == old(db.timelines) + [TimelineEvent(eventId, id, StageEvent, "Stage changed to " + StageName(dest), now)])
        && (patch.value.Ok? ==>
              exists m :: 0 <= m < |old(db.candidates)| && old(db.candidates)[m].id == id
                && patch.value.value == old(db.candidates)[m].(stage := dest)
                && db.candidates == old(db.candidates)[m := patch.value.value])
        && (!patch.value.Ok? ==> db.candidates == old(db.candidates) && db.timelines == old(db.timelines))
      ensures db.jobs == old(db.jobs) && db.assessments == old(db.assessments)
    {
      patch := None;
      if destination.None? {
        return;
      }
      var dest := destination.value.stage;
      if source == dest {
        return;
      }
      var k := NthPosition(items, source, sourceIndex);
      var moved := items[k].(stage := dest);
      items := items[k := moved];
      var r := db.PatchStage(moved.id, dest, eventId, now);
      patch := Some(r);
    }

    /** `handleCreateCandidate`: the trimmed name and email are posted with
        stage "applied", and the server's candidate is appended. */
    method HandleCreateCandidate(db: Handlers.Database, newName: string, newEmail: string,
                                 freshId: string, eventId: string, now: int)
      returns (c: Candidate)
      requires db.Valid()
      requires forall k :: 0 <= k < |db.candidates| ==> db.candidates[k].id != freshId
      modifies this, db
      ensures db.Valid()
      ensures items == old(items) + [c]
      ensures db.candidates == old(db.candidates) + [c]
      ensures db.timelines == old(db.timelines) + [TimelineEvent(eventId, freshId, NoteEvent, c.name + " added", now)]
      ensures db.jobs == old(db.jobs) && db.assessments == old(db.assessments)
      ensures c.id == freshId && c.createdAt == now && c.stage == Applied && c.jobId.None?
      ensures c.name == (if Strings.Trim(newName) != "" then Strings.Trim(newName) else "Unnamed")
      ensures c.email == Strings.Trim(newEmail)
    {
      var data := Handlers.CandidateInput(Some(Strings.Trim(newName)), Some(Strings.Trim(newEmail)), None, Some(Applied));
      Strings.TrimIdempotent(newName);
      Strings.TrimIdempotent(newEmail);
      c := db.CreateCandidate(data, freshId, eventId, now);
      items := items + [c];
    }
  }
}
