/** The paged responses of the upstream API, as both loops of app.js consume them. */
module Paging {
  import opened Wrappers

  /** One response: `Failed` when `r.ok` is false (its body text becomes the thrown message),
      otherwise the page's items and its `next_offset`. */
  datatype Response<T> = Failed(body: string) | Page(items: seq<T>, nextOffset: Option<string>)

  /** `j.next_offset ? … : null`: another page is requested only for a present, non-empty offset. */
  predicate HasNext<T>(p: Response<T>)
  {
    p.Page? && p.nextOffset.Some? && p.nextOffset.value != ""
  }

  /** The upstream's pagination ends: some response in the list stops the loop. The list holds
      the responses in request order; those after the stopping one are never requested. */
  predicate Ends<T>(feed: seq<Response<T>>)
    decreases |feed|
  {
    |feed| > 0 && (!HasNext(feed[0]) || Ends(feed[1..]))
  }

  /** The position of the response that stops the pagination loop. */
  function StopIndex<T>(feed: seq<Response<T>>): (k: nat)
    requires Ends(feed)
    ensures k < |feed| && !HasNext(feed[k])
    ensures forall j :: 0 <= j < k ==> HasNext(feed[j])
    decreases |feed|
  {
    if !HasNext(feed[0]) then 0 else 1 + StopIndex(feed[1..])
  }

  /** All items of a run of pages, in order. */
  function Items<T>(pages: seq<Response<T>>): seq<T>
    decreases |pages|
  {
    if pages == [] then []
    else Items(pages[..|pages| - 1]) + (if pages[|pages| - 1].Page? then pages[|pages| - 1].items else [])
  }

  /** `StopIndex` is the first response that stops the loop, whatever follows it. */
  lemma StopIndexIsFirst<T>(feed: seq<Response<T>>, k: nat)
    requires k < |feed| && !HasNext(feed[k])
    requires forall j :: 0 <= j < k ==> HasNext(feed[j])
    ensures Ends(feed) && StopIndex(feed) == k
    decreases k
  {
    if k > 0 {
      assert HasNext(feed[0]);
      StopIndexIsFirst(feed[1..], k - 1);
    }
  }

  /** Responses after the one that ends the pagination are never requested. */
  lemma {:induction false} LaterResponsesUnread<T>(feed: seq<Response<T>>, extra: seq<Response<T>>)
    requires Ends(feed)
    ensures Ends(feed + extra) && StopIndex(feed + extra) == StopIndex(feed)
    ensures (feed + extra)[..StopIndex(feed) + 1] == feed[..StopIndex(feed) + 1]
  {
    var k := StopIndex(feed);
    StopIndexIsFirst(feed + extra, k);
  }
}
