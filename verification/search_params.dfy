/**
  `URLSearchParams` as an ordered list of name/value pairs, with the `get`,
  `set` and `delete` operations the admin tables use to edit the query string.
*/
module SearchParams {
  import opened Wrappers

  type Params = seq<(string, string)>

  /** `get`: the value of the first pair with this name. */
  function Get(p: Params, name: string): (r: Option<string>)
    ensures r.None? <==> forall i :: 0 <= i < |p| ==> p[i].0 != name
    ensures r.Some? ==> exists i :: 0 <= i < |p| && p[i] == (name, r.value)
  {
    if |p| == 0 then None
    else if p[0].0 == name then Some(p[0].1)
    else
      var r := Get(p[1..], name);
      assert forall i :: 0 <= i < |p| - 1 ==> p[1..][i] == p[i + 1];
      r
  }

  /** `delete`: every pair with this name is removed; the rest keep their order. */
  function Delete(p: Params, name: string): (r: Params)
    ensures forall i :: 0 <= i < |r| ==> r[i].0 != name
    ensures |r| <= |p|
    ensures forall m :: m != name ==> Get(r, m) == Get(p, m)
  {
    if |p| == 0 then []
    else if p[0].0 == name then Delete(p[1..], name)
    else [p[0]] + Delete(p[1..], name)
  }

  /**
    `set`: the first pair with this name takes the new value and the later
    ones are removed; without such a pair, one is appended.
  */
  function Set(p: Params, name: string, value: string): (r: Params)
    ensures Get(r, name) == Some(value)
    ensures forall m :: m != name ==> Get(r, m) == Get(p, m)
  {
    if Get(p, name).None? then
      AppendedGet(p, (name, value));
      p + [(name, value)]
    else ReplaceFirst(p, name, value)
  }

  function ReplaceFirst(p: Params, name: string, value: string): (r: Params)
    requires Get(p, name).Some?
    ensures Get(r, name) == Some(value)
    ensures forall i :: 0 <= i < |r| && r[i].0 == name ==> r[i].1 == value
    ensures forall m :: m != name ==> Get(r, m) == Get(p, m)
  {
    if p[0].0 == name then [(name, value)] + Delete(p[1..], name)
    else [p[0]] + ReplaceFirst(p[1..], name, value)
  }

  lemma AppendedGet(p: Params, kv: (string, string))
    requires Get(p, kv.0).None?
    ensures Get(p + [kv], kv.0) == Some(kv.1)
    ensures forall m :: m != kv.0 ==> Get(p + [kv], m) == Get(p, m)
  {
    if |p| > 0 {
      assert (p + [kv])[1..] == p[1..] + [kv];
      AppendedGet(p[1..], kv);
    }
  }

  /** After `set`, the name occurs exactly once: a second `set` only changes the value. */
  lemma SetTwice(p: Params, name: string, v1: string, v2: string)
    ensures Get(Set(Set(p, name, v1), name, v2), name) == Some(v2)
    ensures forall i :: 0 <= i < |Set(p, name, v1)| && Set(p, name, v1)[i].0 == name ==> Set(p, name, v1)[i].1 == v1
  {
  }

  /** `delete` removes the name entirely; `get` then answers `null`. */
  lemma DeleteThenGet(p: Params, name: string)
    ensures Get(Delete(p, name), name).None?
  {
  }
}
