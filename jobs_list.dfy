/** The jobs page (src/pages/Jobs/JobsList.tsx): one page of jobs held as view
    state, with optimistic create, update and drag-and-drop reorder against the
    server's handlers. */
module JobsList {
  import opened Types
  import opened Sequences
  import opened Ordering
  import opened Handlers
  import Strings

  /** The page size the view asks for. */
  const PageSize := 10

  /** What the form hands to `handleCreate` and `handleUpdate`. */
  datatype Payload = Payload(title: string, slug: string, tags: seq<string>)

  /** `!payload.title.trim()`: the title is empty once trimmed. */
  predicate BlankTitle(payload: Payload) {
    Strings.Trim(payload.title) == ""
  }

  /** `items.some(j => j.slug === slug)`. */
  predicate SlugOnPage(items: seq<Job>, slug: string) {
    exists k :: 0 <= k < |items| && items[k].slug == slug
  }

  /** `items.some(j => j.slug === slug && j.id !== id)`. */
  predicate SlugOnOtherRow(items: seq<Job>, slug: string, id: string) {
    exists k :: 0 <= k < |items| && items[k].slug == slug && items[k].id != id
  }

  /** `s.map(i => i.id === id ? job : i)`: only rows with that id are replaced. */
  function ReplaceById(items: seq<Job>, id: string, job: Job): (r: seq<Job>)
    ensures |r| == |items|
    ensures forall k :: 0 <= k < |items| ==> r[k] == if items[k].id == id then job else items[k]
  {
    seq(|items|, k requires 0 <= k < |items| => if items[k].id == id then job else items[k])
  }

  /** `s.filter(i => i.id !== id)`. */
  function RemoveById(items: seq<Job>, id: string): (r: seq<Job>)
    ensures !HasId(r, id)
    ensures forall k :: 0 <= k < |items| && items[k].id != id ==> items[k] in r
  {
    Filter(items, (j: Job) => j.id != id)
  }

  /** Replacing a prepended temporary row puts the server's job in its place
      and leaves the rest of the list as it was. */
  lemma ReplaceTemp(temp: Job, items: seq<Job>, job: Job)
    requires !HasId(items, temp.id)
    ensures ReplaceById([temp] + items, temp.id, job) == [job] + items
  {
    var t := [temp] + items;
    var r := ReplaceById(t, temp.id, job);
    assert r[0] == job;
    forall k | 1 <= k < |r| ensures r[k] == ([job] + items)[k] {
      assert t[k] == items[k - 1];
      assert t[k].id != temp.id;
    }
  }

  /** Removing a prepended temporary row gives back the list before it. */
  lemma RemoveTemp(temp: Job, items: seq<Job>)
    requires !HasId(items, temp.id)
    ensures RemoveById([temp] + items, temp.id) == items
  {
    var t := [temp] + items;
    assert t[1..] == items;
    FilterAll(items, (j: Job) => j.id != temp.id);
  }

  /** `arrayMove(items, from, to).map((job, idx) => ({ ...job, order: idx }))`. */
  function Optimistic(items: seq<Job>, from: nat, to: nat): (r: seq<Job>)
    requires from < |items|
  {
    Renumbered(Move(items, from, to))
  }

  /** The optimistic list holds the same jobs, the dragged one at its target
      position, and orders 0..n-1. */
  lemma OptimisticMove(items: seq<Job>, from: nat, to: nat)
    requires from < |items| && to < |items|
    ensures |Optimistic(items, from, to)| == |items|
    ensures Dense(Optimistic(items, from, to))
    ensures Optimistic(items, from, to)[to] == items[from].(order := to)
    ensures forall k :: 0 <= k < |items| ==> Optimistic(items, from, to)[k].order == k
    ensures forall k :: 0 <= k < |items| ==>
      Optimistic(items, from, to)[k].(order := Move(items, from, to)[k].order) == Move(items, from, to)[k]
  {
    RenumberedIsDense(Move(items, from, to));
  }

  // ---------------- Paging ----------------

  /** On a dense table, position `i` of page `page` is the job whose order is
      `(page-1)*pageSize + i`. */
  lemma PageEntry(jobs: seq<Job>, page: int, pageSize: int, i: nat)
    requires Dense(jobs) && page >= 1 && pageSize >= 1
    requires i < |JobsPage(jobs, "", "", page, pageSize)|
    ensures 0 <= GlobalIndex(page, pageSize, i) < |jobs|
    ensures JobsPage(jobs, "", "", page, pageSize)[i] == SortByOrder(jobs)[GlobalIndex(page, pageSize, i)]
    ensures JobsPage(jobs, "", "", page, pageSize)[i].order == GlobalIndex(page, pageSize, i)
  {
    GlobalIndexIsOffset(page, pageSize, i);
    PageEntryFrom(jobs, page, pageSize, i, (page - 1) * pageSize);
  }

  lemma PageEntryFrom(jobs: seq<Job>, page: int, pageSize: int, i: nat, start: int)
    requires Dense(jobs) && page >= 1 && pageSize >= 1 && start == (page - 1) * pageSize
    requires i < |JobsPage(jobs, "", "", page, pageSize)|
    ensures 0 <= start + i < |jobs|
    ensures JobsPage(jobs, "", "", page, pageSize)[i] == SortByOrder(jobs)[start + i]
    ensures SortByOrder(jobs)[start + i].order == start + i
  {
    NonNegativeProduct(page - 1, pageSize);
    PageIsSlice(jobs, page, pageSize);
    WindowEntry(jobs, start, pageSize, i);
  }

  lemma NonNegativeProduct(a: int, b: int)
    requires a >= 0 && b >= 0
    ensures a * b >= 0
  {
  }

  lemma PageIsSlice(jobs: seq<Job>, page: int, pageSize: int)
    ensures JobsPage(jobs, "", "", page, pageSize)
      == Slice(SortByOrder(jobs), (page - 1) * pageSize, (page - 1) * pageSize + pageSize)
  {
    assert Matching(jobs, "", "") == jobs;
  }

  /** Entry `i` of the sorted window starting at `start` is the job whose
      order is `start + i`. */
  lemma WindowEntry(jobs: seq<Job>, start: int, size: int, i: nat)
    requires Dense(jobs) && 0 <= start && size >= 1
    requires i < |Slice(SortByOrder(jobs), start, start + size)|
    ensures start + i < |jobs|
    ensures Slice(SortByOrder(jobs), start, start + size)[i] == SortByOrder(jobs)[start + i]
    ensures SortByOrder(jobs)[start + i].order == start + i
  {
    var sorted := SortByOrder(jobs);
    assert |sorted| == |jobs|;
    var w := Slice(sorted, start, start + size);
    assert w == sorted[Min(start, |sorted|)..Min(start + size, |sorted|)];
    assert start + i < |jobs|;
    SortedPositionIsOrder(jobs, start + i);
  }

  /** The table after the view's reorder request: reordered when the id is
      given and `fromOrder` names a job, unchanged otherwise. */
  function ServerAfterReorder(jobs: seq<Job>, activeId: string, fromOrder: nat, toOrder: nat): (r: seq<Job>)
    ensures |r| == |jobs|
    ensures activeId == "" || fromOrder >= |jobs| ==> r == jobs
  {
    if activeId != "" && fromOrder < |jobs| then Reordered(jobs, fromOrder, toOrder) else jobs
  }

  /** The job the create handler stores for a payload: no status, `order` the
      job count, both timestamps `now`. */
  function CreatedJob(payload: Payload, freshId: string, count: nat, now: int): Job {
    Job(freshId, payload.title, payload.slug, None, payload.tags, count, now, Some(now))
  }

  /** The body the update request sends: title, slug and tags, no status. */
  function PayloadPatch(payload: Payload): JobPatch {
    JobPatch(Some(payload.title), Some(payload.slug), Some(payload.tags), None)
  }

  /** The job a page-local index names, counted from the first job: each page
      before `page` holds `pageSize` jobs. */
  function GlobalIndex(page: int, pageSize: nat, i: nat): (r: nat)
    requires page >= 1
    ensures r >= i
    decreases page
  {
    if page == 1 then i else GlobalIndex(page - 1, pageSize, i) + pageSize
  }

  /** The closed form of `GlobalIndex`: the start of the page, `(page-1)*pageSize`,
      plus the index. */
  lemma {:induction false} GlobalIndexIsOffset(page: int, pageSize: nat, i: nat)
    requires page >= 1
    ensures GlobalIndex(page, pageSize, i) == (page - 1) * pageSize + i
    decreases page
  {
    if page > 1 {
      GlobalIndexIsOffset(page - 1, pageSize, i);
      assert (page - 1) * pageSize == (page - 2) * pageSize + pageSize;
    }
  }

  /** On page 1 the indices the view sends are the server's positions: the
      dragged job is the one that moves, and it lands at the target order. */
  lemma PageOneReorderMovesDraggedJob(jobs: seq<Job>, from: nat, to: nat, k: nat)
    requires Dense(jobs) && IdsUnique(jobs)
    requires from < |JobsPage(jobs, "", "", 1, PageSize)| && to < |JobsPage(jobs, "", "", 1, PageSize)|
    requires k < |jobs| && jobs[k] == JobsPage(jobs, "", "", 1, PageSize)[from]
    ensures Reordered(jobs, from, to)[k].order == to
  {
    PageEntry(jobs, 1, PageSize, from);
    PageEntry(jobs, 1, PageSize, to);
    ReorderMovesJobAtFromOrder(jobs, from, to, k);
  }

  /** From page 2 on, the view sends page-local indices that the server reads
      as positions among all jobs: the dragged job keeps its order, and the job
      whose order is the page-local index moves instead. */
  lemma PageTwoReorderMovesOtherJob(jobs: seq<Job>, page: int, from: nat, to: nat, k: nat, m: nat)
    requires Dense(jobs) && IdsUnique(jobs) && page >= 2
    requires from < |JobsPage(jobs, "", "", page, PageSize)| && to < |JobsPage(jobs, "", "", page, PageSize)|
    requires k < |jobs| && jobs[k] == JobsPage(jobs, "", "", page, PageSize)[from]
    requires m < |jobs| && jobs[m].order == from
    ensures m != k
    ensures Reordered(jobs, from, to)[k].order == jobs[k].order
    ensures Reordered(jobs, from, to)[m].order == to
  {
    var g := GlobalIndex(page, PageSize, from);
    PageEntry(jobs, page, PageSize, from);
    var sorted := SortByOrder(jobs);
    var moved := Move(sorted, from, to);
    SortedPositionIsOrder(jobs, g);
    MoveBeyond(sorted, from, to, g);
    KeyUniquePermutation(jobs, moved, IdOf);
    IndexOfPosition(moved, g);
    ReorderMovesJobAtFromOrder(jobs, from, to, m);
  }

  /** The request the view evidently means: page-local indices offset by the
      jobs on earlier pages. With it the dragged job is the one that moves, and
      it lands at the target's order. */
  lemma GlobalReorderMovesDraggedJob(jobs: seq<Job>, page: int, from: nat, to: nat, k: nat)
    requires Dense(jobs) && IdsUnique(jobs) && page >= 1
    requires from < |JobsPage(jobs, "", "", page, PageSize)| && to < |JobsPage(jobs, "", "", page, PageSize)|
    requires k < |jobs| && jobs[k] == JobsPage(jobs, "", "", page, PageSize)[from]
    ensures GlobalIndex(page, PageSize, from) < |jobs| && GlobalIndex(page, PageSize, to) < |jobs|
    ensures Reordered(jobs, GlobalIndex(page, PageSize, from), GlobalIndex(page, PageSize, to))[k].order
      == JobsPage(jobs, "", "", page, PageSize)[to].order
  {
    PageEntry(jobs, page, PageSize, from);
    PageEntry(jobs, page, PageSize, to);
    ReorderMovesJobAtFromOrder(jobs, GlobalIndex(page, PageSize, from), GlobalIndex(page, PageSize, to), k);
  }

  /** The table after a drag on a page showing it, with the positions
      offset by the earlier pages: every row of the dragged job now has the
      order of the row it was dropped on. */
  lemma DraggedJobLands(before: seq<Job>, after: seq<Job>, page: int, from: nat, to: nat)
    requires Dense(before) && IdsUnique(before) && page >= 1
    requires from < |JobsPage(before, "", "", page, PageSize)| && to < |JobsPage(before, "", "", page, PageSize)|
    requires GlobalIndex(page, PageSize, from) < |before|
    requires after == Reordered(before, GlobalIndex(page, PageSize, from), GlobalIndex(page, PageSize, to))
    ensures forall k :: 0 <= k < |before| && before[k] == JobsPage(before, "", "", page, PageSize)[from] ==>
      after[k].order == JobsPage(before, "", "", page, PageSize)[to].order
  {
    forall k | 0 <= k < |before| && before[k] == JobsPage(before, "", "", page, PageSize)[from]
      ensures after[k].order == JobsPage(before, "", "", page, PageSize)[to].order
    {
      GlobalReorderMovesDraggedJob(before, page, from, to, k);
    }
  }

  /** A move leaves the positions after both of its ends alone. */
  lemma MoveBeyond<T>(s: seq<T>, from: nat, to: nat, p: nat)
    requires from < |s| && to < |s| && from < p && to < p < |s|
    ensures Move(s, from, to)[p] == s[p]
  {
    var rest := RemoveAt(s, from);
    assert rest[p - 1] == s[p];
  }

  // ---------------- The view ----------------

  class JobsListView {
    var items: seq<Job>
    var total: int
    var page: int
    var error: bool

    constructor ()
      ensures items == [] && total == 0 && page == 1 && !error
    {
      items, total, page, error := [], 0, 1, false;
    }

    /** `load`: the current page from the server, or an empty list and an
        error when the request fails. */
    method Load(db: Database, fails: bool)
      modifies this
      ensures page == old(page)
      ensures fails ==> items == [] && error && total == old(total)
      ensures !fails ==> !error && items == JobsPage(db.jobs, "", "", page, PageSize) && total == |db.jobs|
    {
      error := false;
      if fails {
        error := true;
        items := [];
        return;
      }
      var t, page_items := db.ListJobs("", "", page, PageSize);
      items := page_items;
      total := t;
    }

    /** `handleCreate`: a blank title or a slug already on the page is refused;
        otherwise a temporary job is prepended, the create request is sent,
        and the temporary row is replaced by the server's job on success or
        removed on failure. */
    method HandleCreate(db: Database, payload: Payload, tempId: string, freshId: string, now: int, fail: bool)
      returns (shown: Option<seq<Job>>, resp: Option<Response<Job>>)
      requires db.Valid() && !HasId(items, tempId)
      requires forall k :: 0 <= k < |db.jobs| ==> db.jobs[k].id != freshId
      modifies this, db
      ensures db.Valid()
      ensures page == old(page) && total == old(total) && error == old(error)
      ensures db.candidates == old(db.candidates) && db.timelines == old(db.timelines)
      ensures db.assessments == old(db.assessments)
      ensures BlankTitle(payload) || SlugOnPage(old(items), payload.slug) ==>
        shown.None? && resp.None? && items == old(items) && db.jobs == old(db.jobs)
      ensures !BlankTitle(payload) && !SlugOnPage(old(items), payload.slug) ==> shown.Some?
      ensures resp.Some? ==> (resp.value.Ok? <==> !SlugUsed(old(db.jobs), payload.slug) && !fail)
      ensures resp.Some? && resp.value.Ok? ==>
        resp.value.value == CreatedJob(payload, freshId, |old(db.jobs)|, now) && db.jobs == old(db.jobs) + [resp.value.value]
      ensures shown.Some? ==>
        && shown.value == [Job(tempId, payload.title, if payload.slug != "" then payload.slug else payload.title,
                               Some(Active), payload.tags, |old(items)|, now, Some(now))] + old(items)
        && resp.Some?
      ensures resp.Some? && resp.value.Ok? ==> items == [resp.value.value] + old(items)
      ensures resp.Some? && !resp.value.Ok? ==> items == old(items) && db.jobs == old(db.jobs)
    {
      shown, resp := None, None;
      if BlankTitle(payload) {
        return;
      }
      if SlugOnPage(items, payload.slug) {
        return;
      }
      var temp := Job(tempId, payload.title, if payload.slug != "" then payload.slug else payload.title,
                      Some(Active), payload.tags, |items|, now, Some(now));
      ghost var before := items;
      items := [temp] + items;
      shown := Some(items);
      var r := SubmitCreate(db, payload, tempId, freshId, now, fail);
      resp := Some(r);
      if r.Ok? {
        ReplaceTemp(temp, before, r.value);
      } else {
        RemoveTemp(temp, before);
      }
    }

    /** The create request of `handleCreate` and how its answer settles the
        temporary row: replaced by the server's job, or removed. */
    method SubmitCreate(db: Database, payload: Payload, tempId: string, freshId: string, now: int, fail: bool)
      returns (r: Response<Job>)
      requires db.Valid()
      requires forall k :: 0 <= k < |db.jobs| ==> db.jobs[k].id != freshId
      modifies this, db
      ensures db.Valid()
      ensures db.candidates == old(db.candidates) && db.timelines == old(db.timelines)
      ensures db.assessments == old(db.assessments)
      ensures page == old(page) && total == old(total) && error == old(error)
      ensures r.Ok? <==> !SlugUsed(old(db.jobs), payload.slug) && !fail
      ensures r.Ok? ==> r.value == CreatedJob(payload, freshId, |old(db.jobs)|, now) && db.jobs == old(db.jobs) + [r.value]
      ensures r.Ok? ==> items == ReplaceById(old(items), tempId, r.value)
      ensures !r.Ok? ==> items == RemoveById(old(items), tempId) && db.jobs == old(db.jobs)
    {
      r := db.CreateJob(JobInput(payload.title, payload.slug, payload.tags, None), freshId, now, fail);
      if r.Ok? {
        items := ReplaceById(items, tempId, r.value);
      } else {
        items := RemoveById(items, tempId);
      }
    }

    /** `handleUpdate`: a blank title, or a slug held by another job on the
        page, is refused; otherwise the update is sent and on success only the
        row with that id is replaced by the server's job. */
    method HandleUpdate(db: Database, id: string, payload: Payload, now: int) returns (resp: Option<Response<Job>>)
      requires db.Valid()
      modifies this, db
      ensures db.Valid()
      ensures page == old(page) && total == old(total) && error == old(error)
      ensures db.candidates == old(db.candidates) && db.timelines == old(db.timelines)
      ensures db.assessments == old(db.assessments)
      ensures BlankTitle(payload) || SlugOnOtherRow(old(items), payload.slug, id) ==>
        resp.None? && items == old(items) && db.jobs == old(db.jobs)
      ensures !BlankTitle(payload) && !SlugOnOtherRow(old(items), payload.slug, id) ==> resp.Some?
      ensures resp.Some? ==> (resp.value.Ok? <==> UpdateAccepted(old(db.jobs), id, PayloadPatch(payload)))
      ensures resp.Some? && resp.value.Ok? ==>
        var k := IndexOfId(old(db.jobs), id);
        resp.value.value == Patched(old(db.jobs)[k], PayloadPatch(payload), now) && db.jobs == old(db.jobs)[k := resp.value.value]
      ensures resp.Some? && resp.value.Ok? ==> items == ReplaceById(old(items), id, resp.value.value)
      ensures resp.Some? && !resp.value.Ok? ==> items == old(items) && db.jobs == old(db.jobs)
    {
      resp := None;
      if BlankTitle(payload) {
        return;
      }
      if SlugOnOtherRow(items, payload.slug, id) {
        return;
      }
      var r := SubmitUpdate(db, id, payload, now);
      resp := Some(r);
    }

    /** The update request of `handleUpdate` and the list change it causes. */
    method SubmitUpdate(db: Database, id: string, payload: Payload, now: int) returns (r: Response<Job>)
      requires db.Valid()
      modifies this, db
      ensures db.Valid()
      ensures db.candidates == old(db.candidates) && db.timelines == old(db.timelines)
      ensures db.assessments == old(db.assessments)
      ensures page == old(page) && total == old(total) && error == old(error)
      ensures r.Ok? <==> UpdateAccepted(old(db.jobs), id, PayloadPatch(payload))
      ensures r.Ok? ==>
        var k := IndexOfId(old(db.jobs), id);
        r.value == Patched(old(db.jobs)[k], PayloadPatch(payload), now) && db.jobs == old(db.jobs)[k := r.value]
      ensures r.Ok? ==> items == ReplaceById(old(items), id, r.value)
      ensures !r.Ok? ==> items == old(items) && db.jobs == old(db.jobs)
    {
      r := db.UpdateJob(id, PayloadPatch(payload), now);
      if r.Ok? {
        items := ReplaceById(items, id, r.value);
      }
    }

    /** The previous-page button: never below page 1. The page is reloaded
        only when the page number changes, since the reload is an effect of
        `page`; on page 1 nothing happens. */
    method PrevPage(db: Database, reloadFails: bool)
      modifies this
      ensures page == Max(1, old(page) - 1)
      ensures page == old(page) ==> items == old(items) && total == old(total) && error == old(error)
      ensures page != old(page) && reloadFails ==> items == [] && error
      ensures page != old(page) && !reloadFails ==>
        !error && items == JobsPage(db.jobs, "", "", page, PageSize) && total == |db.jobs|
    {
      var next := Max(1, page - 1);
      if next != page {
        page := next;
        Load(db, reloadFails);
      }
    }

    /** The next-page button: one page on, then the page is reloaded. */
    method NextPage(db: Database, reloadFails: bool)
      modifies this
      ensures page == old(page) + 1
      ensures reloadFails ==> items == [] && error
      ensures !reloadFails ==> !error && items == JobsPage(db.jobs, "", "", page, PageSize) && total == |db.jobs|
    {
      page := page + 1;
      Load(db, reloadFails);
    }

    /** `handleDragEnd`: no target, or a drop onto the same row, does nothing.
        Otherwise the optimistic list is shown, the reorder request is sent,
        and the page is reloaded whatever the reply. The request carries the
        positions among all jobs, `(page-1)*pageSize` plus the page-local
        index, so that on a page showing the current table the dragged job is
        the one that moves, to the order of the row it was dropped on. */
    method HandleDragEnd(db: Database, activeId: string, overId: Option<string>, reloadFails: bool)
      returns (optimistic: Option<seq<Job>>)
      requires db.Valid() && page >= 1 && HasId(items, activeId)
      requires overId.Some? ==> HasId(items, overId.value)
      modifies this, db
      ensures db.Valid()
      ensures page == old(page)
      ensures db.candidates == old(db.candidates) && db.timelines == old(db.timelines)
      ensures db.assessments == old(db.assessments)
      ensures overId.None? || IndexOfId(old(items), activeId) == IndexOfId(old(items), overId.value) ==>
        optimistic.None? && items == old(items) && db.jobs == old(db.jobs) && total == old(total) && error == old(error)
      ensures overId.Some? && IndexOfId(old(items), activeId) != IndexOfId(old(items), overId.value) ==> optimistic.Some?
      ensures optimistic.Some? ==>
        var from, to := IndexOfId(old(items), activeId), IndexOfId(old(items), overId.value);
        var fromOrder, toOrder := GlobalIndex(page, PageSize, from), GlobalIndex(page, PageSize, to);
        && from < |old(items)| && to < |old(items)|
        && optimistic.value == Optimistic(old(items), from, to)
        && db.jobs == ServerAfterReorder(old(db.jobs), activeId, fromOrder, toOrder)
        && (reloadFails ==> items == [] && error)
        && (!reloadFails ==> items == JobsPage(db.jobs, "", "", page, PageSize))
      ensures optimistic.Some? && activeId != "" && old(items) == JobsPage(old(db.jobs), "", "", page, PageSize) ==>
        var from, to := IndexOfId(old(items), activeId), IndexOfId(old(items), overId.value);
        forall k :: 0 <= k < |old(db.jobs)| && old(db.jobs)[k] == old(items)[from] ==>
          db.jobs[k].order == old(items)[to].order
    {
      optimistic := None;
      if overId.None? {
        return;
      }
      IndexOfPresent(items, activeId);
      IndexOfPresent(items, overId.value);
      var oldIndex := IndexOfId(items, activeId);
      var newIndex := IndexOfId(items, overId.value);
      if oldIndex == newIndex {
        return;
      }
      optimistic := Some(Optimistic(items, oldIndex, newIndex));
      CommitDrop(db, activeId, oldIndex, newIndex, reloadFails);
    }

    /** The rest of `handleDragEnd` once both rows are found and differ: the
        optimistic list is shown, the reorder request is sent with the global
        positions, and the page is reloaded. */
    method CommitDrop(db: Database, activeId: string, from: nat, to: nat, reloadFails: bool)
      requires db.Valid() && page >= 1 && from < |items| && to < |items|
      modifies this, db
      ensures db.Valid()
      ensures db.candidates == old(db.candidates) && db.timelines == old(db.timelines)
      ensures db.assessments == old(db.assessments)
      ensures page == old(page)
      ensures db.jobs == ServerAfterReorder(old(db.jobs), activeId, GlobalIndex(page, PageSize, from), GlobalIndex(page, PageSize, to))
      ensures reloadFails ==> items == [] && error
      ensures !reloadFails ==> items == JobsPage(db.jobs, "", "", page, PageSize)
      ensures activeId != "" && old(items) == JobsPage(old(db.jobs), "", "", page, PageSize) ==>
        forall k :: 0 <= k < |old(db.jobs)| && old(db.jobs)[k] == old(items)[from] ==>
          db.jobs[k].order == old(items)[to].order
    {
      ghost var shown := items;
      ghost var before := db.jobs;
      items := Optimistic(items, from, to);
      var fromOrder := GlobalIndex(page, PageSize, from);
      var toOrder := GlobalIndex(page, PageSize, to);
      var _ := db.Reorder(activeId, fromOrder, toOrder);
      if activeId != "" && shown == JobsPage(before, "", "", page, PageSize) {
        PageEntry(before, page, PageSize, from);
        DraggedJobLands(before, db.jobs, page, from, to);
      }
      Load(db, reloadFails);
    }
  }
}
