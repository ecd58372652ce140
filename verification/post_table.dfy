/**
  The kt-market admin list of blog posts: the search filter in the query
  string, deletion and the publish toggle. The confirmation dialog and the
  server's answer are parameters.
*/
module PostTable {
  import opened Wrappers
  import SearchParams
  import AdminPager

  /** A loaded row; `details` stands for the columns the table only displays. */
  datatype Post = Post(id: string, isPublished: bool, details: string)

  /** Unlike the application table, any non-empty value (even 'all') is kept. */
  function UpdateFilters(p: SearchParams.Params, key: string, value: string): (r: SearchParams.Params)
    ensures SearchParams.Get(r, key) == (if value != "" then Some(value) else None)
    ensures key != "page" ==> SearchParams.Get(r, "page") == Some("1")
    ensures forall m :: m != key && m != "page" ==> SearchParams.Get(r, m) == SearchParams.Get(p, m)
  {
    AdminPager.UpdateFilters(p, key, value, value != "")
  }

  /** The posts whose id differs from `id`, in their original order. */
  function Without(data: seq<Post>, id: string): (r: seq<Post>)
    ensures |r| <= |data|
    ensures forall i :: 0 <= i < |r| ==> r[i].id != id && r[i] in data
    ensures forall i :: 0 <= i < |data| && data[i].id != id ==> data[i] in r
  {
    if |data| == 0 then []
    else if data[0].id == id then Without(data[1..], id)
    else [data[0]] + Without(data[1..], id)
  }

  /** Removal works piecewise, so the survivors keep their relative order. */
  lemma {:induction false} WithoutAppend(a: seq<Post>, b: seq<Post>, id: string)
    ensures Without(a + b, id) == Without(a, id) + Without(b, id)
  {
    if |a| == 0 {
      assert a + b == b;
    } else {
      assert (a + b)[1..] == a[1..] + b;
      WithoutAppend(a[1..], b, id);
    }
  }

  /** `handleDelete`: a confirmed, successful delete drops that id's posts. */
  function HandleDelete(data: seq<Post>, id: string, confirmed: bool, serverOk: bool): (r: seq<Post>)
    ensures !(confirmed && serverOk) ==> r == data
    ensures confirmed && serverOk ==> r == Without(data, id)
  {
    if confirmed && serverOk then Without(data, id) else data
  }

  /**
    `handleTogglePublish`: the rows with that id are set to the opposite of
    the `current` value the button was rendered with; a failure changes nothing.
  */
  function HandleTogglePublish(data: seq<Post>, id: string, current: bool, serverOk: bool): (r: seq<Post>)
    ensures |r| == |data|
    ensures !serverOk ==> r == data
    ensures forall i :: 0 <= i < |r| ==>
      && r[i].id == data[i].id && r[i].details == data[i].details
      && r[i].isPublished == (if serverOk && data[i].id == id then !current else data[i].isPublished)
  {
    if !serverOk then data
    else
      seq(|data|, i requires 0 <= i < |data| =>
        if data[i].id == id then data[i].(isPublished := !current) else data[i])
  }

  /** Toggling a post and toggling it back restores the list. */
  lemma ToggleTwiceRestores(data: seq<Post>, id: string, current: bool)
    requires forall i :: 0 <= i < |data| && data[i].id == id ==> data[i].isPublished == current
    ensures HandleTogglePublish(HandleTogglePublish(data, id, current, true), id, !current, true) == data
  {
    var once := HandleTogglePublish(data, id, current, true);
    var twice := HandleTogglePublish(once, id, !current, true);
    assert forall i :: 0 <= i < |data| ==> twice[i] == data[i];
  }
}
