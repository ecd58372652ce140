/**
  The kt-market admin list of service applications: the filters read from
  and written to the query string, and the in-place edits of the loaded rows
  after a status change or a memo update. The confirmation dialog and the
  server's answer are parameters.
*/
module ApplicationTable {
  import opened Wrappers
  import SearchParams
  import AdminPager

  datatype ApplicationStatus = Pending | Consulting | Completed | Cancelled

  /** A loaded row; `details` stands for the columns the table only displays. */
  datatype Application = Application(id: string, status: ApplicationStatus, memo: Option<string>, details: string)

  /** A query value is kept unless it is empty or 'all'. */
  predicate KeepsValue(value: string) {
    value != "" && value != "all"
  }

  function UpdateFilters(p: SearchParams.Params, key: string, value: string): (r: SearchParams.Params)
    ensures SearchParams.Get(r, key) == (if KeepsValue(value) then Some(value) else None)
    ensures key != "page" ==> SearchParams.Get(r, "page") == Some("1")
    ensures forall m :: m != key && m != "page" ==> SearchParams.Get(r, m) == SearchParams.Get(p, m)
  {
    AdminPager.UpdateFilters(p, key, value, KeepsValue(value))
  }

  /** `searchParams.get(name) || 'all'` */
  function FilterOf(p: SearchParams.Params, name: string): (v: string)
    ensures v != ""
    ensures HasText(SearchParams.Get(p, name)) ==> v == SearchParams.Get(p, name).value
  {
    var raw := SearchParams.Get(p, name);
    if HasText(raw) then raw.value else "all"
  }

  /** `searchParams.get('search') || ''` */
  function SearchOf(p: SearchParams.Params): (v: string)
    ensures SearchParams.Get(p, "search").Some? ==> v == SearchParams.Get(p, "search").value
    ensures SearchParams.Get(p, "search").None? ==> v == ""
  {
    SearchParams.Get(p, "search").GetOr("")
  }

  /** Choosing a status or type in a select is what the table then shows as selected. */
  lemma SelectRoundTrip(p: SearchParams.Params, key: string, value: string)
    requires key == "status" || key == "type"
    ensures FilterOf(UpdateFilters(p, key, value), key) == (if value == "" then "all" else value)
  {
  }

  /**
    `handleStatusChange`: after a confirmed, successful update the rows with
    that id take the new status; otherwise nothing changes.
  */
  function HandleStatusChange(data: seq<Application>, id: string, newStatus: ApplicationStatus,
                              confirmed: bool, serverOk: bool): (r: seq<Application>)
    ensures |r| == |data|
    ensures !(confirmed && serverOk) ==> r == data
    ensures forall i :: 0 <= i < |r| ==>
      && r[i].id == data[i].id && r[i].memo == data[i].memo && r[i].details == data[i].details
      && r[i].status == (if confirmed && serverOk && data[i].id == id then newStatus else data[i].status)
  {
    if !(confirmed && serverOk) then data
    else
      seq(|data|, i requires 0 <= i < |data| =>
        if data[i].id == id then data[i].(status := newStatus) else data[i])
  }

  /** The detail dialog's `onMemoUpdate`: only the memo of the rows with that id changes. */
  function MemoUpdate(data: seq<Application>, id: string, memo: string): (r: seq<Application>)
    ensures |r| == |data|
    ensures forall i :: 0 <= i < |r| ==>
      && r[i].id == data[i].id && r[i].status == data[i].status && r[i].details == data[i].details
      && r[i].memo == (if data[i].id == id then Some(memo) else data[i].memo)
  {
    seq(|data|, i requires 0 <= i < |data| =>
      if data[i].id == id then data[i].(memo := Some(memo)) else data[i])
  }

  /** Rows of other ids are untouched by both edits, and the ids keep their order. */
  lemma EditsKeepOtherRows(data: seq<Application>, id: string, s: ApplicationStatus, memo: string, i: nat)
    requires i < |data| && data[i].id != id
    ensures HandleStatusChange(data, id, s, true, true)[i] == data[i]
    ensures MemoUpdate(data, id, memo)[i] == data[i]
  {
  }

  /** Setting a status the rows already have changes nothing. */
  lemma StatusChangeIdempotent(data: seq<Application>, id: string, s: ApplicationStatus)
    ensures var once := HandleStatusChange(data, id, s, true, true);
      HandleStatusChange(once, id, s, true, true) == once
  {
  }
}
