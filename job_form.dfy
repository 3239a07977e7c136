/** The job form (src/pages/Jobs/JobForm.tsx): its three text fields, the tag
    parsing, and the checks that decide whether it calls `onCreate`, `onUpdate`
    or nothing. */
module JobForm {
  import opened Types
  import opened Strings
  import Sequences

  /** The three inputs: title, slug and the comma-separated tags. */
  datatype Fields = Fields(title: string, slug: string, tags: string)

  datatype Payload = Payload(title: string, slug: string, tags: seq<string>)

  /** What submitting does: refuse with a message, or call one of the callbacks. */
  datatype Outcome =
    | TitleRequired
    | SlugRequired
    | SlugTaken
    | CallCreate(payload: Payload)
    | CallUpdate(id: string, payload: Payload)

  /** `filter(Boolean)` on strings. */
  predicate NonEmpty(t: string) {
    t != ""
  }

  predicate IsTag(t: string) {
    t != "" && IsTrimmed(t) && ',' !in t
  }

  /** A piece of `s` cut out by `trim` holds no character `s` lacks. */
  lemma TrimKeepsAbsence(s: string, c: char)
    requires c !in s
    ensures c !in Trim(s)
  {
    TrimCutsWhitespace(s);
    var i :| TrimmedFrom(s, Trim(s), i);
    forall k | 0 <= k < |Trim(s)| ensures Trim(s)[k] != c {
      assert Trim(s)[k] == s[i + k];
    }
  }

  /** `pieces.map(s => s.trim())`. */
  function TrimEach(pieces: seq<string>): (r: seq<string>)
    ensures |r| == |pieces| && forall i :: 0 <= i < |pieces| ==> r[i] == Trim(pieces[i])
  {
    seq(|pieces|, i requires 0 <= i < |pieces| => Trim(pieces[i]))
  }

  /** `tags.split(',').map(s => s.trim()).filter(Boolean)`: every tag is
      non-empty, trimmed and free of commas. */
  function ParseTags(text: string): (r: seq<string>)
    ensures forall k :: 0 <= k < |r| ==> IsTag(r[k])
  {
    var pieces := Split(text, ',');
    var trimmed := TrimEach(pieces);
    forall i | 0 <= i < |pieces| ensures ',' !in trimmed[i] {
      TrimKeepsAbsence(pieces[i], ',');
    }
    Sequences.Filter(trimmed, NonEmpty)
  }

  /** The pieces of a joined tag list trim back to the tags. */
  lemma TrimEachJoined(tags: seq<string>)
    requires |tags| > 0
    requires forall k :: 0 <= k < |tags| ==> IsTag(tags[k])
    ensures TrimEach(Split(Join(tags, ", "), ',')) == tags
  {
    SplitJoin(tags);
    TrimEachPieces(tags, Split(Join(tags, ", "), ','));
  }

  lemma TrimEachPieces(tags: seq<string>, pieces: seq<string>)
    requires |tags| > 0 && |pieces| == |tags|
    requires forall k :: 0 <= k < |tags| ==> IsTag(tags[k])
    requires pieces[0] == tags[0]
    requires forall k :: 1 <= k < |tags| ==> pieces[k] == " " + tags[k]
    ensures TrimEach(pieces) == tags
  {
    var trimmed := TrimEach(pieces);
    forall k | 0 <= k < |tags| ensures trimmed[k] == tags[k] {
      if k == 0 {
        TrimOfTrimmed(tags[0]);
      } else {
        TrimLeadingSpace(tags[k]);
      }
    }
  }

  /** Tags shown as `tags.join(', ')` parse back to the same list when every
      tag is non-empty, trimmed and free of commas. */
  lemma ParseJoinRoundTrip(tags: seq<string>)
    requires forall k :: 0 <= k < |tags| ==> IsTag(tags[k])
    ensures ParseTags(Join(tags, ", ")) == tags
  {
    if |tags| == 0 {
      ParseEmptyText();
    } else {
      ParseJoinedTags(tags);
    }
  }

  /** An empty tag field gives no tags. */
  lemma ParseEmptyText()
    ensures ParseTags("") == []
  {
    ParseTagsSteps("");
    assert Split("", ',') == [""];
    assert TrimEach([""]) == [""];
    assert [""][1..] == [];
  }

  lemma ParseJoinedTags(tags: seq<string>)
    requires |tags| > 0
    requires forall k :: 0 <= k < |tags| ==> IsTag(tags[k])
    ensures ParseTags(Join(tags, ", ")) == tags
  {
    ParseTagsSteps(Join(tags, ", "));
    TrimEachJoined(tags);
    Sequences.FilterAll(tags, NonEmpty);
  }

  lemma ParseTagsSteps(text: string)
    ensures ParseTags(text) == Sequences.Filter(TrimEach(Split(text, ',')), NonEmpty)
  {
  }

  /** Tags keep the order of the text: the tags before a comma come first. */
  lemma ParseTagsConcat(a: string, b: string)
    ensures ParseTags(a + "," + b) == ParseTags(a) + ParseTags(b)
  {
    var pa, pb := Split(a, ','), Split(b, ',');
    assert a + "," + b == a + [','] + b;
    SplitAppend(a, b, ',');
    TrimEachConcat(pa, pb);
    Sequences.FilterConcat(TrimEach(pa), TrimEach(pb), NonEmpty);
    ParseTagsSteps(a + "," + b);
    ParseTagsSteps(a);
    ParseTagsSteps(b);
  }

  lemma TrimEachConcat(pa: seq<string>, pb: seq<string>)
    ensures TrimEach(pa + pb) == TrimEach(pa) + TrimEach(pb)
  {
  }

  /** Text without a comma is one tag, its trimmed text, unless that is empty. */
  lemma ParseTagsOnePiece(t: string)
    requires ',' !in t
    ensures ParseTags(t) == if Trim(t) == "" then [] else [Trim(t)]
  {
    ParseTagsSteps(t);
    SplitNoSeparator(t, ',');
    assert TrimEach([t]) == [] + [Trim(t)];
    Sequences.FilterSnoc([], Trim(t), NonEmpty);
  }

  /** The fields as the form fills them: from the edited job, or empty. */
  function InitialFields(job: Option<Job>): Fields {
    if job.Some? then Fields(job.value.title, job.value.slug, Join(job.value.tags, ", "))
    else Fields("", "", "")
  }

  /** `trimmedSlug !== job?.slug` with `existingSlugs.includes(trimmedSlug)`. */
  predicate Taken(slug: string, job: Option<Job>, existingSlugs: seq<string>) {
    slug in existingSlugs && (job.None? || slug != job.value.slug)
  }

  /** `handleSubmit`: blank title, then blank slug, then a taken slug are
      refused; otherwise the trimmed payload goes to `onUpdate` when a job is
      edited and `onUpdate` is given, to `onCreate` otherwise. */
  function Submit(f: Fields, job: Option<Job>, hasOnUpdate: bool, existingSlugs: seq<string>): (r: Outcome)
    ensures r == TitleRequired <==> Trim(f.title) == ""
    ensures r == SlugRequired <==> Trim(f.title) != "" && Trim(f.slug) == ""
    ensures r == SlugTaken <==>
      Trim(f.title) != "" && Trim(f.slug) != "" && Taken(Trim(f.slug), job, existingSlugs)
    ensures r.CallCreate? || r.CallUpdate? ==>
      && r.payload == Payload(Trim(f.title), Trim(f.slug), ParseTags(f.tags))
      && r.payload.title != "" && r.payload.slug != ""
      && (r.payload.slug !in existingSlugs || (job.Some? && r.payload.slug == job.value.slug))
    ensures r.CallUpdate? ==> job.Some? && hasOnUpdate && r.id == job.value.id
    ensures r.CallCreate? ==> !(job.Some? && hasOnUpdate)
  {
    var title := Trim(f.title);
    var slug := Trim(f.slug);
    var tags := ParseTags(f.tags);
    if title == "" then TitleRequired
    else if slug == "" then SlugRequired
    else if Taken(slug, job, existingSlugs) then SlugTaken
    else
      var payload := Payload(title, slug, tags);
      if job.Some? && hasOnUpdate then CallUpdate(job.value.id, payload) else CallCreate(payload)
  }

  /** Opening a job for editing and submitting without touching a field sends
      the job's own title, slug and tags back to `onUpdate`, even though its
      slug is among the existing ones. */
  lemma UntouchedEditRoundTrip(job: Job, existingSlugs: seq<string>)
    requires job.title != "" && IsTrimmed(job.title)
    requires job.slug != "" && IsTrimmed(job.slug)
    requires forall k :: 0 <= k < |job.tags| ==> IsTag(job.tags[k])
    ensures Submit(InitialFields(Some(job)), Some(job), true, existingSlugs) ==
      CallUpdate(job.id, Payload(job.title, job.slug, job.tags))
  {
    var f := InitialFields(Some(job));
    assert f.title == job.title && f.slug == job.slug && f.tags == Join(job.tags, ", ");
    TrimOfTrimmed(job.title);
    TrimOfTrimmed(job.slug);
    ParseJoinRoundTrip(job.tags);
    assert !Taken(job.slug, Some(job), existingSlugs);
  }
}
