/** `fetchHolders` of app.js: every page of the token-holders endpoint, concatenated. */
module Holders {
  import opened Wrappers
  import opened Paging

  /** A holder record: `wallet_address` and its `balance` as a `BigInt`. */
  datatype Holder = Holder(wallet: string, balance: nat)

  /** The holders the loop collects: the holders of every page up to the one without a
      further offset, in order; if that stopping response failed, its body text is thrown.
      Every response before it carried an offset, so it is the only one that can have failed. */
  function Collected(feed: seq<Response<Holder>>): Result<seq<Holder>>
    requires Ends(feed)
  {
    var k := StopIndex(feed);
    if feed[k].Failed? then Err(feed[k].body) else Ok(Items(feed[..k + 1]))
  }

  /** Adding responses behind the last one requested changes nothing. */
  lemma CollectedIgnoresLaterPages(feed: seq<Response<Holder>>, extra: seq<Response<Holder>>)
    requires Ends(feed)
    ensures Ends(feed + extra) && Collected(feed + extra) == Collected(feed)
  {
    LaterResponsesUnread(feed, extra);
  }

  /** The `while(url)` loop of `fetchHolders`. */
  method FetchHolders(feed: seq<Response<Holder>>) returns (r: Result<seq<Holder>>)
    requires Ends(feed)
    ensures r == Collected(feed)
  {
    ghost var k := StopIndex(feed);
    var all: seq<Holder> := [];
    var i := 0;
    var more := true;
    r := Ok([]);
    while more
      invariant 0 <= i <= k + 1
      invariant more ==> i <= k
      invariant more ==> all == Items(feed[..i])
      invariant !more ==> r == Collected(feed)
      decreases k + 1 - i, if more then 1 else 0
    {
      match feed[i] {
        case Failed(body) =>
          r := Err(body);
          more := false;
        case Page(items, _) =>
          assert feed[..i + 1][..i] == feed[..i];
          all := all + items;
          more := HasNext(feed[i]);
          i := i + 1;
          if !more {
            r := Ok(all);
          }
      }
    }
  }
}
