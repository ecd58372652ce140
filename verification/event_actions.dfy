/**
  The kt-market admin server actions for events: `upsertEvent` turns the
  submitted form into an event record and either updates the event with the
  given id or inserts a new one; `deleteEvent` removes one. The events table is
  a map from id to record. The store's answer, the id it assigns to a new row
  and the current time are parameters.
*/
module EventActions {
  import opened Wrappers
  import opened Text
  import StringUtil

  /** Submitted form fields by name; a field that was not sent is absent. */
  type FormData = map<string, string>

  /** `formData.get(name)`: the field's text, or `null`. */
  function Field(form: FormData, name: string): (r: Option<string>)
    ensures r.Some? <==> name in form
    ensures r.Some? ==> r.value == form[name]
  {
    if name in form then Some(form[name]) else None
  }

  /** The columns `upsertEvent` writes; `None` is a SQL `NULL`. */
  datatype EventRecord = EventRecord(
    title: Option<string>,
    slug: string,
    content: Option<string>,
    startDate: Option<string>,
    endDate: Option<string>,
    thumbnailUrl: Option<string>,
    isFinish: bool,
    updatedAt: string)

  type Table = map<string, EventRecord>

  datatype EventError =
    | TitleMissing  // `title.replace` on a null title
    | SaveFailed
    | DeleteFailed

  /** A completed action: the new table, the paths whose cache is dropped, and where the browser is sent. */
  datatype Done = Done(table: Table, revalidated: seq<string>, redirectTo: Option<string>)

  const AdminEventPath := "/admin/event"
  const EventPath := "/event"

  /** `v || null` */
  function OrNull(v: Option<string>): (r: Option<string>)
    ensures r.Some? <==> HasText(v)
    ensures r.Some? ==> r == v
  {
    if HasText(v) then v else None
  }

  /**
    `title.replace(/\s+/g, '-').toLowerCase()`: no white space and no capitals
    are left, and every character other than '-' and a lower-case letter comes
    from the title.
  */
  function SlugOfTitle(title: string): (r: string)
    ensures NoSpace(r) && NoUpper(r)
    ensures |r| <= |title|
    ensures forall c :: c in r && !('a' <= c <= 'z') && c != '-' ==> c in title
    ensures NoSpace(title) && NoUpper(title) ==> r == title
  {
    var dashed := StringUtil.ReplaceSpaceRuns(title);
    var r := ToLower(dashed);
    assert forall c :: c in r && !('a' <= c <= 'z') && c != '-' ==> c in title by {
      forall c | c in r && !('a' <= c <= 'z') && c != '-' ensures c in title {
        ToLowerOrigin(dashed, c);
      }
    }
    if NoSpace(title) && NoUpper(title) then ToLowerIdentity(dashed); r else r
  }

  /**
    The derived slug run by run: a space-free stretch, a run of white space and
    the rest give the stretch lower-cased, one '-', and the slug of the rest.
    With the space-free case this fixes the slug of every title.
  */
  lemma SlugOfTitleStep(a: string, run: string, b: string)
    requires NoSpace(a)
    requires |run| >= 1 && forall i :: 0 <= i < |run| ==> IsJsSpace(run[i])
    requires |b| > 0 ==> !IsJsSpace(b[0])
    ensures SlugOfTitle(a + run + b) == ToLower(a) + "-" + SlugOfTitle(b)
  {
    var rest := StringUtil.ReplaceSpaceRuns(b);
    StringUtil.ReplaceSpaceRunsStep(a, run, b);
    ToLowerAppend(a + "-", rest);
    ToLowerAppend(a, "-");
    assert ToLower("-") == "-";
  }

  /** A title without white space only loses its capitals. */
  lemma SlugOfSpaceFreeTitle(title: string)
    requires NoSpace(title)
    ensures SlugOfTitle(title) == ToLower(title)
  {
  }

  /**
    The slug: the submitted one when non-empty, otherwise derived from the
    title. Without either the action throws before touching the store.
  */
  function Slug(form: FormData): (r: Result<string, EventError>)
    ensures HasText(Field(form, "slug")) ==> r == Success(form["slug"])
    ensures !HasText(Field(form, "slug")) && "title" in form ==> r == Success(SlugOfTitle(form["title"]))
    ensures r.Failure? <==> !HasText(Field(form, "slug")) && "title" !in form
  {
    var slug := Field(form, "slug");
    if HasText(slug) then Success(slug.value)
    else if "title" in form then Success(SlugOfTitle(form["title"]))
    else Failure(TitleMissing)
  }

  /** The record `upsertEvent` writes, stamped with the ISO time `now`. */
  function EventData(form: FormData, slug: string, now: string): (r: EventRecord)
    ensures r.title == Field(form, "title") && r.slug == slug
    ensures r.content == Field(form, "content") && r.thumbnailUrl == Field(form, "thumbnail_url")
    ensures r.startDate.Some? <==> HasText(Field(form, "start_date"))
    ensures r.endDate.Some? <==> HasText(Field(form, "end_date"))
    ensures r.startDate.Some? ==> r.startDate.value == form["start_date"]
    ensures r.endDate.Some? ==> r.endDate.value == form["end_date"]
    ensures r.isFinish <==> "is_finish" in form && form["is_finish"] == "on"
    ensures r.updatedAt == now
  {
    EventRecord(
      Field(form, "title"),
      slug,
      Field(form, "content"),
      OrNull(Field(form, "start_date")),
      OrNull(Field(form, "end_date")),
      Field(form, "thumbnail_url"),
      Field(form, "is_finish") == Some("on"),
      now)
  }

  /**
    `upsertEvent`: a non-empty id updates that row (a missing row is left
    missing, as an `UPDATE … WHERE id = …` matching nothing is no error);
    otherwise the record is inserted under the id the store assigns. A store
    error throws and leaves the table as it was; only success revalidates and
    redirects.
  */
  function Upsert(table: Table, form: FormData, now: string, freshId: string, storeError: bool)
    : (r: Result<Done, EventError>)
    requires freshId !in table
    ensures r.Failure? <==> Slug(form).Failure? || storeError
    ensures r.Failure? && Slug(form).Failure? ==> r.error == TitleMissing
    ensures r.Failure? && Slug(form).Success? ==> r.error == SaveFailed
    ensures r.Success? ==>
      var slug := Slug(form).value;
      && r.value.redirectTo == Some(AdminEventPath)
      && r.value.revalidated == [AdminEventPath, EventPath + "/" + slug]
    ensures r.Success? && HasText(Field(form, "id")) ==>
      var id := form["id"];
      && r.value.table.Keys == table.Keys
      && (id in table ==> r.value.table[id] == EventData(form, Slug(form).value, now))
      && (forall k :: k in table && k != id ==> r.value.table[k] == table[k])
    ensures r.Success? && !HasText(Field(form, "id")) ==>
      && r.value.table.Keys == table.Keys + {freshId}
      && r.value.table[freshId] == EventData(form, Slug(form).value, now)
      && (forall k :: k in table ==> r.value.table[k] == table[k])
  {
    match Slug(form)
    case Failure(e) => Failure(e)
    case Success(slug) =>
      if storeError then Failure(SaveFailed)
      else
        var data := EventData(form, slug, now);
        var id := Field(form, "id");
        var table' :=
          if HasText(id) then (if id.value in table then table[id.value := data] else table)
          else table[freshId := data];
        Success(Done(table', [AdminEventPath, EventPath + "/" + slug], Some(AdminEventPath)))
  }

  /** `deleteEvent`: a store error throws; nothing redirects. */
  function Delete(table: Table, id: string, storeError: bool): (r: Result<Done, EventError>)
    ensures r.Failure? <==> storeError
    ensures r.Failure? ==> r.error == DeleteFailed
    ensures r.Success? ==>
      && r.value.table.Keys == table.Keys - {id}
      && (forall k :: k in r.value.table ==> r.value.table[k] == table[k])
      && r.value.revalidated == [AdminEventPath, EventPath]
      && r.value.redirectTo.None?
  {
    if storeError then Failure(DeleteFailed)
    else Success(Done(table - {id}, [AdminEventPath, EventPath], None))
  }

  /** A form that names the event just inserted updates it in place rather than adding another. */
  lemma EditAfterCreate(table: Table, form: FormData, now: string, freshId: string, later: string, other: string)
    requires freshId !in table && freshId != ""
    requires !HasText(Field(form, "id"))
    requires Upsert(table, form, now, freshId, false).Success?
    requires other !in Upsert(table, form, now, freshId, false).value.table
    ensures var t1 := Upsert(table, form, now, freshId, false).value.table;
      var edit := form["id" := freshId];
      && Upsert(t1, edit, later, other, false).Success?
      && Upsert(t1, edit, later, other, false).value.table == t1[freshId := EventData(form, Slug(form).value, later)]
  {
    var t1 := Upsert(table, form, now, freshId, false).value.table;
    var edit := form["id" := freshId];
    assert Field(edit, "id") == Some(freshId);
    assert Field(edit, "slug") == Field(form, "slug") && "title" in edit <==> "title" in form;
    assert Slug(edit) == Slug(form);
    assert EventData(edit, Slug(form).value, later) == EventData(form, Slug(form).value, later);
    assert freshId in t1;
  }

  /** Saving the same edit twice leaves the table as saving it once did. */
  lemma UpdateIdempotent(table: Table, form: FormData, now: string, freshId: string)
    requires freshId !in table
    requires HasText(Field(form, "id"))
    requires Upsert(table, form, now, freshId, false).Success?
    ensures var t1 := Upsert(table, form, now, freshId, false).value.table;
      Upsert(t1, form, now, freshId, false).value.table == t1
  {
  }

  /** A derived slug is one URL path segment: no white space, no '/' the title lacked. */
  lemma DerivedSlugIsSegment(form: FormData)
    requires !HasText(Field(form, "slug")) && "title" in form
    requires '/' !in form["title"]
    ensures Slug(form).Success?
    ensures NoSpace(Slug(form).value) && '/' !in Slug(form).value
  {
  }
}
