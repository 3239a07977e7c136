/** The mock server (src/api/msw/handlers.ts): the request handlers for jobs,
    candidates, timelines and assessments, as operations on in-memory tables.
    Fresh ids, the current time and the simulated write failure are inputs. */
module Handlers {
  import opened Types
  import opened Sequences
  import opened Ordering
  import Strings

  /** A handler's reply: the body on success, or the status with its error text. */
  datatype Response<T> = Ok(value: T) | BadRequest(error: string) | NotFound(error: string) | ServerError(error: string)

  /** The body of `POST /api/jobs`: the job fields the form sends. */
  datatype JobInput = JobInput(title: string, slug: string, tags: seq<string>, status: Option<JobStatus>)

  /** The body of `PUT /api/jobs/:id`: the fields present overwrite the stored ones. */
  datatype JobPatch = JobPatch(title: Option<string>, slug: Option<string>, tags: Option<seq<string>>, status: Option<JobStatus>)

  /** The body of `POST /api/candidates`. */
  datatype CandidateInput = CandidateInput(name: Option<string>, email: Option<string>, jobId: Option<string>, stage: Option<Stage>)

  /** The body of `POST /api/timeline`. */
  datatype EventInput = EventInput(candidateId: Option<string>, kind: Option<EventKind>, note: Option<string>)

  function CandidateId(c: Candidate): string { c.id }

  function EventTs(e: TimelineEvent): int { e.ts }

  // ---------------- Listing ----------------

  predicate TitleMatches(j: Job, search: string) {
    Strings.Contains(Strings.ToLower(j.title), Strings.ToLower(search))
  }

  /** `j.status === status`: a job without a status matches no status filter. */
  predicate StatusMatches(j: Job, status: string) {
    j.status.Some? && StatusName(j.status.value) == status
  }

  /** The jobs the search and status filters keep; an empty filter is not applied. */
  function Matching(jobs: seq<Job>, search: string, status: string): (r: seq<Job>)
    ensures forall k :: 0 <= k < |r| ==> r[k] in jobs
    ensures forall k :: 0 <= k < |r| ==>
      (search == "" || TitleMatches(r[k], search)) && (status == "" || StatusMatches(r[k], status))
    ensures forall k :: 0 <= k < |jobs| ==>
      ((search == "" || TitleMatches(jobs[k], search)) && (status == "" || StatusMatches(jobs[k], status))
       <==> jobs[k] in r)
  {
    var bySearch := if search != "" then Filter(jobs, (j: Job) => TitleMatches(j, search)) else jobs;
    if status != "" then Filter(bySearch, (j: Job) => StatusMatches(j, status)) else bySearch
  }

  /** One page of the filtered jobs in `order` order: positions
      `(page-1)*pageSize` up to `page*pageSize` of the sorted list. */
  function JobsPage(jobs: seq<Job>, search: string, status: string, page: int, pageSize: int): seq<Job> {
    var start := (page - 1) * pageSize;
    Slice(SortByOrder(Matching(jobs, search, status)), start, start + pageSize)
  }

  /** `IndexOf` by id: the first position holding the id, or the length when none does. */
  function IndexOfId(s: seq<Job>, id: string): (r: nat)
    ensures r <= |s|
    ensures r < |s| ==> s[r].id == id
    ensures forall p :: 0 <= p < r ==> s[p].id != id
  {
    if |s| == 0 then 0 else if s[0].id == id then 0 else 1 + IndexOfId(s[1..], id)
  }

  /** An id some row carries is found. */
  lemma IndexOfPresent(s: seq<Job>, id: string)
    requires HasId(s, id)
    ensures IndexOfId(s, id) < |s|
  {
    var k :| 0 <= k < |s| && s[k].id == id;
  }

  lemma IndexOfPosition(s: seq<Job>, p: nat)
    requires IdsUnique(s) && p < |s|
    ensures IndexOfId(s, s[p].id) == p
  {
  }

  /** The table after the reorder endpoint: each row keeps all its fields but
      `order`, which becomes the row's position in the sorted list after the
      job at `fromOrder` was moved to `toOrder`. */
  function Reordered(jobs: seq<Job>, fromOrder: nat, toOrder: nat): (r: seq<Job>)
    requires fromOrder < |jobs|
    ensures |r| == |jobs|
    ensures forall k :: 0 <= k < |jobs| ==> r[k].(order := jobs[k].order) == jobs[k]
  {
    var moved := Move(SortByOrder(jobs), fromOrder, toOrder);
    seq(|jobs|, k requires 0 <= k < |jobs| => jobs[k].(order := IndexOfId(moved, jobs[k].id)))
  }

  /** Every row's id appears in the moved list, at the position that becomes its order. */
  lemma ReorderedPositions(jobs: seq<Job>, fromOrder: nat, toOrder: nat, k: nat)
    requires IdsUnique(jobs) && fromOrder < |jobs| && k < |jobs|
    ensures var moved := Move(SortByOrder(jobs), fromOrder, toOrder);
      IndexOfId(moved, jobs[k].id) < |moved| && moved[IndexOfId(moved, jobs[k].id)] == jobs[k]
  {
    var moved := Move(SortByOrder(jobs), fromOrder, toOrder);
    assert jobs[k] in multiset(moved);
    var p :| 0 <= p < |moved| && moved[p] == jobs[k];
    KeyUniquePermutation(jobs, moved, IdOf);
    IndexOfPosition(moved, p);
  }

  /** Reordering makes the orders dense, whatever they were: each lies in
      0..N-1 and no two rows share one. */
  lemma ReorderedIsDense(jobs: seq<Job>, fromOrder: nat, toOrder: nat)
    requires IdsUnique(jobs) && fromOrder < |jobs|
    ensures Dense(Reordered(jobs, fromOrder, toOrder))
    ensures IdsUnique(Reordered(jobs, fromOrder, toOrder))
  {
    var r := Reordered(jobs, fromOrder, toOrder);
    var moved := Move(SortByOrder(jobs), fromOrder, toOrder);
    forall k | 0 <= k < |r| ensures 0 <= r[k].order < |r| {
      ReorderedPositions(jobs, fromOrder, toOrder, k);
    }
    forall a, b | 0 <= a < b < |r| ensures r[a].order != r[b].order && r[a].id != r[b].id {
      ReorderedRowsDiffer(jobs, fromOrder, toOrder, a, b);
    }
  }

  lemma ReorderedRowsDiffer(jobs: seq<Job>, fromOrder: nat, toOrder: nat, a: nat, b: nat)
    requires IdsUnique(jobs) && fromOrder < |jobs| && a < b < |jobs|
    ensures Reordered(jobs, fromOrder, toOrder)[a].order != Reordered(jobs, fromOrder, toOrder)[b].order
    ensures Reordered(jobs, fromOrder, toOrder)[a].id != Reordered(jobs, fromOrder, toOrder)[b].id
  {
    var r := Reordered(jobs, fromOrder, toOrder);
    ReorderedPositions(jobs, fromOrder, toOrder, a);
    ReorderedPositions(jobs, fromOrder, toOrder, b);
    assert jobs[a].id != jobs[b].id;
    assert r[a].id == jobs[a].id && r[b].id == jobs[b].id;
  }

  /** On a dense table the job whose order is `fromOrder` is the one that moves,
      and it ends at order `min(toOrder, N-1)`. */
  lemma ReorderMovesJobAtFromOrder(jobs: seq<Job>, fromOrder: nat, toOrder: nat, k: nat)
    requires Dense(jobs) && IdsUnique(jobs) && fromOrder < |jobs| && k < |jobs|
    requires jobs[k].order == fromOrder
    ensures Reordered(jobs, fromOrder, toOrder)[k].order == Min(toOrder, |jobs| - 1)
  {
    var sorted := SortByOrder(jobs);
    var moved := Move(sorted, fromOrder, toOrder);
    SortedPositionIsOrder(jobs, fromOrder);
    assert moved[Min(toOrder, |jobs| - 1)] == jobs[k];
    KeyUniquePermutation(jobs, moved, IdOf);
    IndexOfPosition(moved, Min(toOrder, |jobs| - 1));
  }

  /** On a dense table a move onto the same position leaves every row as it was. */
  lemma ReorderToSelf(jobs: seq<Job>, p: nat)
    requires Dense(jobs) && IdsUnique(jobs) && p < |jobs|
    ensures Reordered(jobs, p, p) == jobs
  {
    var sorted := SortByOrder(jobs);
    MoveToSelf(sorted, p);
    KeyUniquePermutation(jobs, sorted, IdOf);
    SortDense(jobs);
    forall k | 0 <= k < |jobs| ensures Reordered(jobs, p, p)[k] == jobs[k] {
      var o := jobs[k].order;
      SortedPositionIsOrder(jobs, o);
      IndexOfPosition(sorted, o);
    }
  }

  /** `db.jobs.update(id, { order })`: the row with that id gets the order. */
  function SetOrder(jobs: seq<Job>, id: string, order: int): (r: seq<Job>)
    ensures |r| == |jobs|
    ensures forall k :: 0 <= k < |jobs| ==> r[k] == if jobs[k].id == id then jobs[k].(order := order) else jobs[k]
  {
    seq(|jobs|, k requires 0 <= k < |jobs| => if jobs[k].id == id then jobs[k].(order := order) else jobs[k])
  }

  /** After the first `i` updates of the reorder loop: the rows whose id sits
      before position `i` of the moved list carry that position as their order,
      every other row is as it was. */
  ghost predicate RewrittenUpTo(start: seq<Job>, moved: seq<Job>, jobs: seq<Job>, i: nat) {
    |jobs| == |start|
    && forall k :: 0 <= k < |start| ==>
      jobs[k] == start[k].(order := if IndexOfId(moved, start[k].id) < i then IndexOfId(moved, start[k].id) else start[k].order)
  }

  lemma RewriteStep(start: seq<Job>, moved: seq<Job>, jobs: seq<Job>, i: nat)
    requires IdsUnique(moved) && i < |moved|
    requires RewrittenUpTo(start, moved, jobs, i)
    ensures RewrittenUpTo(start, moved, SetOrder(jobs, moved[i].id, i), i + 1)
  {
    IndexOfPosition(moved, i);
    var next := SetOrder(jobs, moved[i].id, i);
    forall k | 0 <= k < |start|
      ensures next[k] == start[k].(order := if IndexOfId(moved, start[k].id) < i + 1 then IndexOfId(moved, start[k].id) else start[k].order)
    {
      assert jobs[k].id == start[k].id;
      if start[k].id == moved[i].id {
        assert IndexOfId(moved, start[k].id) == i;
      } else {
        assert IndexOfId(moved, start[k].id) != i;
      }
    }
  }

  lemma RewriteDone(start: seq<Job>, fromOrder: nat, toOrder: nat, jobs: seq<Job>)
    requires IdsUnique(start) && fromOrder < |start|
    requires RewrittenUpTo(start, Move(SortByOrder(start), fromOrder, toOrder), jobs, |start|)
    ensures jobs == Reordered(start, fromOrder, toOrder)
  {
    forall k | 0 <= k < |start| ensures jobs[k] == Reordered(start, fromOrder, toOrder)[k] {
      ReorderedPositions(start, fromOrder, toOrder, k);
    }
  }

  // ---------------- The tables ----------------

  /** Some job already carries the slug. */
  predicate SlugUsed(jobs: seq<Job>, slug: string) {
    exists k :: 0 <= k < |jobs| && jobs[k].slug == slug
  }

  /** When `PATCH /api/jobs/:id` succeeds: the id is given, a job carries it,
      and a new non-empty slug is not one some job already uses. */
  predicate UpdateAccepted(jobs: seq<Job>, id: string, patch: JobPatch) {
    var k := IndexOfId(jobs, id);
    id != "" && k < |jobs|
    && !(patch.slug.Some? && patch.slug.value != "" && patch.slug.value != jobs[k].slug
         && SlugUsed(jobs, patch.slug.value))
  }

  class Database {
    var jobs: seq<Job>
    var candidates: seq<Candidate>
    var timelines: seq<TimelineEvent>
    var assessments: map<string, Assessment>

    /** Ids are keys, and job orders are dense: the state the seed creates and
        every handler keeps. */
    ghost predicate Valid()
      reads this
    {
      IdsUnique(jobs) && Dense(jobs) && KeyUnique(candidates, CandidateId)
    }

    constructor ()
      ensures jobs == [] && candidates == [] && timelines == [] && assessments == map[]
      ensures Valid()
    {
      jobs, candidates, timelines, assessments := [], [], [], map[];
    }

    /** `GET /api/jobs`: filter, sort by order, cut one page; `total` counts the
        filtered jobs. At most `pageSize` jobs come back, all of them matching,
        in `order` order. */
    method ListJobs(search: string, status: string, page: int, pageSize: int) returns (total: nat, items: seq<Job>)
      ensures total == |Matching(jobs, search, status)|
      ensures items == JobsPage(jobs, search, status, page, pageSize)
      ensures pageSize >= 0 ==> |items| <= pageSize
      ensures forall k :: 0 <= k < |items| ==>
        items[k] in jobs && (search == "" || TitleMatches(items[k], search)) && (status == "" || StatusMatches(items[k], status))
      ensures SortedBy(items, OrderOf)
    {
      var filtered := Matching(jobs, search, status);
      var sorted := SortByOrder(filtered);
      var start := (page - 1) * pageSize;
      items := Slice(sorted, start, start + pageSize);
      total := |filtered|;
      WindowProperties(jobs, search, status, start, pageSize, items);
    }

    /** `POST /api/jobs`: a taken slug is refused, then the simulated failure;
        otherwise the job is appended with `order` = the job count. */
    method CreateJob(data: JobInput, freshId: string, now: int, fail: bool) returns (resp: Response<Job>)
      requires Valid()
      requires forall k :: 0 <= k < |jobs| ==> jobs[k].id != freshId
      modifies this
      ensures Valid()
      ensures candidates == old(candidates) && timelines == old(timelines) && assessments == old(assessments)
      ensures SlugUsed(old(jobs), data.slug) ==> resp == BadRequest("Slug must be unique") && jobs == old(jobs)
      ensures !SlugUsed(old(jobs), data.slug) && fail ==> resp == ServerError("Simulated write error") && jobs == old(jobs)
      ensures !SlugUsed(old(jobs), data.slug) && !fail ==>
        && resp == Ok(Job(freshId, data.title, data.slug, data.status, data.tags, |old(jobs)|, now, Some(now)))
        && jobs == old(jobs) + [resp.value]
    {
      if SlugUsed(jobs, data.slug) {
        return BadRequest("Slug must be unique");
      }
      if fail {
        return ServerError("Simulated write error");
      }
      var job := Job(freshId, data.title, data.slug, data.status, data.tags, |jobs|, now, Some(now));
      jobs := jobs + [job];
      resp := Ok(job);
    }

    /** `PUT /api/jobs/:id`: a missing id, an unknown job, or a new non-empty
        slug held by a job are refused; otherwise the fields present overwrite
        the stored job, `updatedAt` is set and nothing else changes. */
    method UpdateJob(id: string, patch: JobPatch, now: int) returns (resp: Response<Job>)
      requires Valid()
      modifies this
      ensures Valid()
      ensures candidates == old(candidates) && timelines == old(timelines) && assessments == old(assessments)
      ensures id == "" ==> resp == BadRequest("Job ID required") && jobs == old(jobs)
      ensures resp.Ok? <==> UpdateAccepted(old(jobs), id, patch)
      ensures !resp.Ok? ==> jobs == old(jobs)
      ensures resp.Ok? ==>
        var k := IndexOfId(old(jobs), id);
        && resp.value == Patched(old(jobs)[k], patch, now)
        && jobs == old(jobs)[k := resp.value]
    {
      if id == "" {
        return BadRequest("Job ID required");
      }
      var k := IndexOfId(jobs, id);
      if k == |jobs| {
        return NotFound("Job not found");
      }
      var existing := jobs[k];
      if patch.slug.Some? && patch.slug.value != "" && patch.slug.value != existing.slug {
        if SlugUsed(jobs, patch.slug.value) {
          return BadRequest("Slug must be unique");
        }
      }
      var updated := Patched(existing, patch, now);
      jobs := jobs[k := updated];
      resp := Ok(updated);
      assert forall i :: 0 <= i < |jobs| ==> jobs[i].id == old(jobs)[i].id && jobs[i].order == old(jobs)[i].order;
    }

    /** `PATCH /api/jobs/:id/reorder`: the id is only checked to be present;
        the job at `fromOrder` of the sorted list moves to `toOrder`, and every
        row's order is rewritten to its new position, one row at a time. */
    method Reorder(id: string, fromOrder: nat, toOrder: nat) returns (resp: Response<()>)
      requires Valid()
      modifies this
      ensures Valid()
      ensures candidates == old(candidates) && timelines == old(timelines) && assessments == old(assessments)
      ensures id == "" ==> resp == BadRequest("Job ID required") && jobs == old(jobs)
      ensures id != "" && fromOrder >= |old(jobs)| ==> resp.ServerError? && jobs == old(jobs)
      ensures id != "" && fromOrder < |old(jobs)| ==> resp == Ok(()) && jobs == Reordered(old(jobs), fromOrder, toOrder)
    {
      if id == "" {
        return BadRequest("Job ID required");
      }
      if fromOrder >= |jobs| {
        // Nothing is spliced out, so the list holds `undefined` from position
        // min(toOrder, N) on; the updates issued before it rewrite orders to
        // the positions they already hold in a dense table, and reading the id
        // of `undefined` then fails the request.
        return ServerError("Cannot read properties of undefined");
      }
      ghost var start := jobs;
      var moved := Move(SortByOrder(jobs), fromOrder, toOrder);
      KeyUniquePermutation(jobs, moved, IdOf);
      var i := 0;
      while i < |moved|
        invariant 0 <= i <= |moved|
        invariant RewrittenUpTo(start, moved, jobs, i)
        invariant candidates == old(candidates) && timelines == old(timelines) && assessments == old(assessments)
      {
        RewriteStep(start, moved, jobs, i);
        jobs := SetOrder(jobs, moved[i].id, i);
        i := i + 1;
      }
      RewriteDone(start, fromOrder, toOrder, jobs);
      ReorderedIsDense(start, fromOrder, toOrder);
      resp := Ok(());
    }

    /** `POST /api/candidates`: trimmed name or "Unnamed", trimmed email or "",
        stage "applied" unless given; one note event "<name> added" is appended. */
    method CreateCandidate(data: CandidateInput, freshId: string, eventId: string, now: int) returns (c: Candidate)
      requires Valid()
      requires forall k :: 0 <= k < |candidates| ==> candidates[k].id != freshId
      modifies this
      ensures Valid()
      ensures jobs == old(jobs) && assessments == old(assessments)
      ensures c.id == freshId && c.createdAt == now && c.jobId == data.jobId
      ensures c.name == (if data.name.Some? && Strings.Trim(data.name.value) != "" then Strings.Trim(data.name.value) else "Unnamed")
      ensures c.email == (if data.email.Some? then Strings.Trim(data.email.value) else "")
      ensures c.stage == (if data.stage.Some? then data.stage.value else Applied)
      ensures candidates == old(candidates) + [c]
      ensures timelines == old(timelines) + [TimelineEvent(eventId, freshId, NoteEvent, c.name + " added", now)]
    {
      var name := if data.name.Some? then Strings.Trim(data.name.value) else "";
      var email := if data.email.Some? then Strings.Trim(data.email.value) else "";
      c := Candidate(freshId, if name != "" then name else "Unnamed", email, data.jobId,
                     if data.stage.Some? then data.stage.value else Applied, now);
      KeyUniqueSnoc(candidates, c, CandidateId);
      candidates := candidates + [c];
      timelines := timelines + [TimelineEvent(eventId, c.id, NoteEvent, c.name + " added", now)];
    }

    /** `PATCH /api/candidates/:id/stage`: an unknown candidate is a 404 with no
        change; otherwise only its stage changes and one stage event is appended. */
    method PatchStage(id: string, stage: Stage, eventId: string, now: int) returns (resp: Response<Candidate>)
      requires Valid()
      modifies this
      ensures Valid()
      ensures jobs == old(jobs) && assessments == old(assessments)
      ensures id == "" ==> resp == BadRequest("Candidate ID required")
      ensures resp.Ok? <==> id != "" && exists k :: 0 <= k < |old(candidates)| && old(candidates)[k].id == id
      ensures !resp.Ok? ==> candidates == old(candidates) && timelines == old(timelines)
      ensures resp.Ok? ==>
        exists k :: 0 <= k < |old(candidates)| && old(candidates)[k].id == id
          && resp.value == old(candidates)[k].(stage := stage)
          && candidates == old(candidates)[k := resp.value]
      ensures resp.Ok? ==>
        timelines == old(timelines) + [TimelineEvent(eventId, id, StageEvent, "Stage changed to " + StageName(stage), now)]
    {
      if id == "" {
        return BadRequest("Candidate ID required");
      }
      var k := 0;
      while k < |candidates| && candidates[k].id != id
        invariant 0 <= k <= |candidates|
        invariant forall p :: 0 <= p < k ==> candidates[p].id != id
      {
        k := k + 1;
      }
      if k == |candidates| {
        return NotFound("Candidate not found");
      }
      var updated := candidates[k].(stage := stage);
      candidates := candidates[k := updated];
      timelines := timelines + [TimelineEvent(eventId, id, StageEvent, "Stage changed to " + StageName(stage), now)];
      resp := Ok(updated);
      assert forall i :: 0 <= i < |candidates| ==> candidates[i].id == old(candidates)[i].id;
    }

    /** `GET /api/timeline`: a missing candidate id is refused; otherwise the
        events of that candidate, oldest first. */
    method ListTimeline(candidateId: string) returns (resp: Response<seq<TimelineEvent>>)
      ensures candidateId == "" ==> resp == BadRequest("candidateId required")
      ensures resp.Ok? ==>
        multiset(resp.value) == multiset(Filter(timelines, (e: TimelineEvent) => e.candidateId == candidateId))
      ensures candidateId != "" ==>
        resp.Ok? && resp.value == SortBy(Filter(timelines, (e: TimelineEvent) => e.candidateId == candidateId), EventTs)
      ensures resp.Ok? ==> SortedBy(resp.value, EventTs)
      ensures resp.Ok? ==>
        forall k :: 0 <= k < |resp.value| ==> resp.value[k].candidateId == candidateId && resp.value[k] in timelines
      ensures resp.Ok? ==>
        forall k :: 0 <= k < |timelines| && timelines[k].candidateId == candidateId ==> timelines[k] in resp.value
    {
      if candidateId == "" {
        return BadRequest("candidateId required");
      }
      var events := Filter(timelines, (e: TimelineEvent) => e.candidateId == candidateId);
      var sorted := SortBy(events, EventTs);
      SameElements(events, sorted);
      resp := Ok(sorted);
    }

    /** `POST /api/timeline`: absent fields default to "", "note" and "". */
    method AppendTimeline(data: EventInput, freshId: string, now: int) returns (e: TimelineEvent)
      modifies this
      ensures jobs == old(jobs) && candidates == old(candidates) && assessments == old(assessments)
      ensures e.id == freshId && e.ts == now
      ensures e.candidateId == (if data.candidateId.Some? then data.candidateId.value else "")
      ensures e.kind == (if data.kind.Some? then data.kind.value else NoteEvent)
      ensures e.note == (if data.note.Some? then data.note.value else "")
      ensures timelines == old(timelines) + [e]
    {
      e := TimelineEvent(freshId,
                         if data.candidateId.Some? then data.candidateId.value else "",
                         if data.kind.Some? then data.kind.value else NoteEvent,
                         if data.note.Some? then data.note.value else "",
                         now);
      timelines := timelines + [e];
    }

    /** `GET /api/assessments/:jobId`: the stored record, or a fresh empty one
        that is not stored. */
    method GetAssessment(jobId: string) returns (resp: Response<Assessment>)
      ensures jobId == "" ==> resp == BadRequest("Job ID required")
      ensures jobId != "" && jobId in assessments ==> resp == Ok(assessments[jobId])
      ensures jobId != "" && jobId !in assessments ==> resp == Ok(Assessment(jobId, "New Assessment", [], None))
    {
      if jobId == "" {
        return BadRequest("Job ID required");
      }
      if jobId in assessments {
        resp := Ok(assessments[jobId]);
      } else {
        resp := Ok(Assessment(jobId, "New Assessment", [], None));
      }
    }

    /** `PUT /api/assessments/:jobId`: the record is stored under the body's
        job id; the id in the URL plays no part. */
    method PutAssessment(urlJobId: string, data: Assessment) returns (stored: Assessment)
      requires Valid()
      modifies this
      ensures Valid()
      ensures stored == data
      ensures assessments == old(assessments)[data.jobId := data]
      ensures jobs == old(jobs) && candidates == old(candidates) && timelines == old(timelines)
    {
      assessments := assessments[data.jobId := data];
      stored := data;
    }
  }

  /** `{ ...existing, ...data, updatedAt }`: present fields win, id and order are kept. */
  function Patched(existing: Job, patch: JobPatch, now: int): (r: Job)
    ensures r.id == existing.id && r.order == existing.order && r.createdAt == existing.createdAt
    ensures r.updatedAt == Some(now)
    ensures r.title == (if patch.title.Some? then patch.title.value else existing.title)
    ensures r.slug == (if patch.slug.Some? then patch.slug.value else existing.slug)
    ensures r.tags == (if patch.tags.Some? then patch.tags.value else existing.tags)
    ensures r.status == (if patch.status.Some? then patch.status else existing.status)
  {
    existing.(
      title := if patch.title.Some? then patch.title.value else existing.title,
      slug := if patch.slug.Some? then patch.slug.value else existing.slug,
      tags := if patch.tags.Some? then patch.tags.value else existing.tags,
      status := if patch.status.Some? then patch.status else existing.status,
      updatedAt := Some(now))
  }

  /** An empty patch only refreshes `updatedAt`. */
  lemma EmptyPatch(existing: Job, now: int)
    ensures Patched(existing, JobPatch(None, None, None, None), now) == existing.(updatedAt := Some(now))
  {
  }

  /** A window of the sorted matching jobs holds at most `size` jobs, each a
      matching job of the table, in `order` order. */
  lemma WindowProperties(jobs: seq<Job>, search: string, status: string, start: int, size: int, w: seq<Job>)
    requires w == Slice(SortByOrder(Matching(jobs, search, status)), start, start + size)
    ensures size >= 0 ==> |w| <= size
    ensures forall k :: 0 <= k < |w| ==>
      w[k] in jobs && (search == "" || TitleMatches(w[k], search)) && (status == "" || StatusMatches(w[k], status))
    ensures SortedBy(w, OrderOf)
  {
    var filtered := Matching(jobs, search, status);
    var sorted := SortByOrder(filtered);
    if size >= 0 {
      SliceLength(sorted, start, start + size);
    }
    SliceProperties(sorted, start, start + size);
    WindowMembers(filtered, sorted, w);
    forall k | 0 <= k < |w|
      ensures w[k] in jobs && (search == "" || TitleMatches(w[k], search)) && (status == "" || StatusMatches(w[k], status))
    {
      MatchingMember(jobs, search, status, w[k]);
    }
  }

  lemma MatchingMember(jobs: seq<Job>, search: string, status: string, x: Job)
    requires x in Matching(jobs, search, status)
    ensures x in jobs && (search == "" || TitleMatches(x, search)) && (status == "" || StatusMatches(x, status))
  {
    var filtered := Matching(jobs, search, status);
    var m :| 0 <= m < |filtered| && filtered[m] == x;
  }

  lemma WindowMembers(filtered: seq<Job>, sorted: seq<Job>, w: seq<Job>)
    requires multiset(sorted) == multiset(filtered)
    requires forall k :: 0 <= k < |w| ==> w[k] in sorted
    ensures forall k :: 0 <= k < |w| ==> w[k] in filtered
  {
    forall k | 0 <= k < |w| ensures w[k] in filtered {
      assert w[k] in multiset(sorted);
    }
  }

  /** A slice of a list sorted by `order` is sorted and drawn from the list. */
  lemma SliceProperties(all: seq<Job>, start: int, end: int)
    requires SortedBy(all, OrderOf)
    ensures SortedBy(Slice(all, start, end), OrderOf)
    ensures forall k :: 0 <= k < |Slice(all, start, end)| ==> Slice(all, start, end)[k] in all
  {
    var a, b := ClampIndex(start, |all|), ClampIndex(end, |all|);
    if a < b {
      assert Slice(all, start, end) == all[a..b];
      forall i, j | 0 <= i < j < b - a ensures OrderOf(all[a..b][i]) <= OrderOf(all[a..b][j]) {
        assert all[a..b][i] == all[a + i] && all[a..b][j] == all[a + j];
      }
    }
  }
}
