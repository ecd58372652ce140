/**
  Derivation of the client identifier the rate limiter keys on, from the
  request headers. Headers are a map from lower-case header name to value.
*/
module ClientIp {
  import opened Text

  type Headers = map<string, string>

  const ForwardedFor := "x-forwarded-for"
  const RealIp := "x-real-ip"
  const ConnectingIp := "cf-connecting-ip"

  /** The identifier shared by every client that sends none of the headers. */
  const Unknown := "unknown"

  /** `headers.get(name)` returned a non-empty string. */
  predicate Present(h: Headers, name: string) {
    name in h && h[name] != ""
  }

  /** `split(',')[0]` is the text before the first comma, or all of `s`. */
  lemma SplitFirstPiece(s: string)
    ensures var p := Split(s, ',')[0];
      StartsWith(s, p) && ',' !in p && (|p| < |s| ==> s[|p|] == ',')
  {
    if ',' in s {
      var i := IndexOf(s, ',');
      assert Split(s, ',')[0] == s[..i];
    }
  }

  /** `getClientIp` */
  function GetClientIp(h: Headers): (ip: string)
    ensures Present(h, ForwardedFor) ==> ',' !in ip
    ensures Present(h, ForwardedFor) ==>
      var first := Split(h[ForwardedFor], ',')[0];
      StartsWith(h[ForwardedFor], first) && ip == Trim(first)
    ensures !Present(h, ForwardedFor) && Present(h, RealIp) ==> ip == Trim(h[RealIp])
    ensures !Present(h, ForwardedFor) && !Present(h, RealIp) && Present(h, ConnectingIp) ==>
      ip == Trim(h[ConnectingIp])
    ensures !Present(h, ForwardedFor) && !Present(h, RealIp) && !Present(h, ConnectingIp) ==>
      ip == Unknown
  {
    if Present(h, ForwardedFor) then
      SplitFirstPiece(h[ForwardedFor]);
      var first := Split(h[ForwardedFor], ',')[0];
      assert ',' !in Trim(first) by {
        assert forall k :: 0 <= k < |Trim(first)| ==> Trim(first)[k] == first[TrimOffset(first) + k];
      }
      Trim(first)
    else if Present(h, RealIp) then Trim(h[RealIp])
    else if Present(h, ConnectingIp) then Trim(h[ConnectingIp])
    else Unknown
  }

  /**
    A header of lower priority never matters once a header of higher priority
    is present: two requests that agree on the winning header get the same
    identifier, whatever else they carry.
  */
  lemma HigherPriorityWins(h1: Headers, h2: Headers)
    ensures Present(h1, ForwardedFor) && Present(h2, ForwardedFor) && h1[ForwardedFor] == h2[ForwardedFor] ==>
      GetClientIp(h1) == GetClientIp(h2)
    ensures (&& !Present(h1, ForwardedFor) && !Present(h2, ForwardedFor)
             && Present(h1, RealIp) && Present(h2, RealIp) && h1[RealIp] == h2[RealIp]) ==>
      GetClientIp(h1) == GetClientIp(h2)
  {
  }
}
