/**
  The paging controls shared by the admin tables: the current page read from
  the query string as `Number(searchParams.get('page')) || 1`, the filter
  update that rewrites the query string, and the previous/next buttons.
*/
module AdminPager {
  import opened Wrappers
  import opened Text
  import opened JsNumber
  import SearchParams

  /** `Number(searchParams.get('page')) || 1`; a missing parameter reads as `Number(null)`, which is 0. */
  function CurrentPage(p: SearchParams.Params): (page: Num)
    ensures Truthy(page)
    ensures var raw := SearchParams.Get(p, "page");
      && (raw.None? ==> page == Fin(1.0))
      && (raw.Some? && Truthy(ToNumber(raw.value)) ==> page == ToNumber(raw.value))
      && (raw.Some? && !Truthy(ToNumber(raw.value)) ==> page == Fin(1.0))
  {
    var raw := SearchParams.Get(p, "page");
    var n := if raw.None? then Fin(0.0) else ToNumber(raw.value);
    if Truthy(n) then n else Fin(1.0)
  }

  /** `page <= 1` */
  predicate PrevDisabled(page: Num) {
    match page
    case NaN => false
    case Fin(v) => v <= 1.0
    case Inf(positive) => !positive
  }

  /** `page >= totalPages` */
  predicate NextDisabled(page: Num, totalPages: int) {
    match page
    case NaN => false
    case Fin(v) => v >= totalPages as real
    case Inf(positive) => positive
  }

  /** The pager is rendered only when there is more than one page. */
  predicate PagerShown(totalPages: int) {
    totalPages > 1
  }

  /** `String(n)` for a whole number. */
  function IntToString(n: int): (s: string)
    ensures n >= 0 ==> s == NatToString(n)
  {
    if n >= 0 then NatToString(n) else "-" + NatToString(-n)
  }

  /**
    `updateFilters`: the key is set to the value when `keep(value)` holds and
    removed otherwise, and a change of any key other than 'page' sends the
    table back to page "1". `keep` is the table's notion of a real value.
  */
  function UpdateFilters(p: SearchParams.Params, key: string, value: string, keep: bool): (r: SearchParams.Params)
    ensures key != "page" ==> SearchParams.Get(r, "page") == Some("1")
    ensures SearchParams.Get(r, key) == (if keep then Some(value) else None)
    ensures forall m :: m != key && m != "page" ==> SearchParams.Get(r, m) == SearchParams.Get(p, m)
  {
    var edited := if keep then SearchParams.Set(p, key, value) else SearchParams.Delete(p, key);
    if key != "page" then SearchParams.Set(edited, "page", "1") else edited
  }

  /** After any filter change other than paging, the table shows page 1. */
  lemma FilterChangeShowsFirstPage(p: SearchParams.Params, key: string, value: string, keep: bool)
    requires key != "page"
    ensures CurrentPage(UpdateFilters(p, key, value, keep)) == Fin(1.0)
  {
    ToNumberOfNat(1);
    assert NatToString(1) == "1";
  }

  /** Clicking "next" on whole page `n` shows page `n + 1`. */
  lemma NextPageRoundTrip(p: SearchParams.Params, n: nat)
    requires ((n + 1) as real) < OverflowBound
    ensures CurrentPage(UpdateFilters(p, "page", IntToString(n + 1), true)) == Fin((n + 1) as real)
  {
    var s := IntToString(n + 1);
    ToNumberOfNat(n + 1);
    RoundedNat(n + 1);
    PageOfNumeral(UpdateFilters(p, "page", s, true), s, (n + 1) as real);
  }

  /** Clicking "previous" on whole page `n > 1` shows page `n - 1`. */
  lemma PrevPageRoundTrip(p: SearchParams.Params, n: nat)
    requires !PrevDisabled(Fin(n as real))
    requires (n as real) < OverflowBound
    ensures CurrentPage(UpdateFilters(p, "page", IntToString(n - 1), true)) == Fin((n - 1) as real)
  {
    var s := IntToString(n - 1);
    ToNumberOfNat(n - 1);
    RoundedNat(n - 1);
    PageOfNumeral(UpdateFilters(p, "page", s, true), s, (n - 1) as real);
  }

  /** A page parameter holding a non-zero numeral is the page shown. */
  lemma PageOfNumeral(r: SearchParams.Params, s: string, v: real)
    requires SearchParams.Get(r, "page") == Some(s)
    requires ToNumber(s) == Fin(v) && v != 0.0
    ensures CurrentPage(r) == Fin(v)
  {
  }

  /** On a whole page between 1 and the last, each button is enabled exactly when there is a page to go to. */
  lemma ButtonsMatchPages(n: int, totalPages: int)
    ensures !PrevDisabled(Fin(n as real)) <==> n >= 2
    ensures !NextDisabled(Fin(n as real), totalPages) <==> n + 1 <= totalPages
  {
  }
}
