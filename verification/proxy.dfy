/** The one computation of the details route of the proxy: at most 50 ids
    are forwarded upstream. */
module Proxy {

  const MaxForwardedIds: nat := 50

  /** `videoIds.split(",").slice(0, 50)`, on the list before it is joined. */
  function ForwardedIds(ids: seq<string>): (r: seq<string>)
    ensures |r| == if |ids| < MaxForwardedIds then |ids| else MaxForwardedIds
    ensures r == ids[..|r|]
  {
    if |ids| <= MaxForwardedIds then ids else ids[..MaxForwardedIds]
  }
}
