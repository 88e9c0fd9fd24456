/** `aggregateTransfers` of app.js: one pass over the token's activity feed, newest first,
    counting transfers in and out of every address inside the time window. */
module Activity {
  import opened Wrappers
  import opened Ascii
  import opened Paging
  import opened Window

  const Erc20: string := "erc20"

  /** One activity record: `asset_type`, `block_time` as milliseconds, `from`, `to` and `value`. */
  datatype Event = Event(assetType: string, ts: int, from: string, to: string, value: nat)

  /** Per-address counters: transfers in, transfers out, amount in, amount out. */
  datatype Stats = Stats(inC: nat, outC: nat, inA: nat, outA: nat)

  const Zero: Stats := Stats(0, 0, 0, 0)

  function Add(a: Stats, b: Stats): Stats
  {
    Stats(a.inC + b.inC, a.outC + b.outC, a.inA + b.inA, a.outA + b.outA)
  }

  /** The `Map` of app.js, keyed by lower-cased address. */
  type Ledger = map<string, Stats>

  /** An address's counters; an address without an entry reads as all zeros. */
  function Get(m: Ledger, a: string): Stats
  {
    if a in m then m[a] else Zero
  }

  /** An ERC-20 record older than the window: the scan ends there (`return m`). */
  predicate Stops(w: Window, e: Event)
  {
    e.assetType == Erc20 && e.ts < w.fromMs
  }

  /** An ERC-20 record inside the window, both bounds included. */
  predicate Contributes(w: Window, e: Event)
  {
    e.assetType == Erc20 && w.fromMs <= e.ts <= w.toMs
  }

  /** What one contributing record, with lower-cased sender `from` and receiver `to`, adds to
      address `a`: a transfer out when `a` is the sender, a transfer in when `a` is the receiver,
      and nothing for the token's own address. */
  function Delta(token: string, from: string, to: string, v: nat, a: string): Stats
  {
    var sent := from == a && a != token;
    var received := to == a && a != token;
    Stats(if received then 1 else 0, if sent then 1 else 0,
          if received then v else 0, if sent then v else 0)
  }

  function EventDelta(token: string, e: Event, a: string): Stats
  {
    Delta(token, Lower(e.from), Lower(e.to), e.value, a)
  }

  /** `s.outC++; s.outA += val` on the entry of `a`, created with zeros if missing. */
  function CreditOut(m: Ledger, a: string, v: nat): (r: Ledger)
    ensures r.Keys == m.Keys + {a}
    ensures Get(r, a) == Add(Get(m, a), Stats(0, 1, 0, v))
    ensures forall b :: b != a ==> Get(r, b) == Get(m, b)
  {
    var s := Get(m, a);
    m[a := s.(outC := s.outC + 1, outA := s.outA + v)]
  }

  /** `s.inC++; s.inA += val` on the entry of `a`, created with zeros if missing. */
  function CreditIn(m: Ledger, a: string, v: nat): (r: Ledger)
    ensures r.Keys == m.Keys + {a}
    ensures Get(r, a) == Add(Get(m, a), Stats(1, 0, v, 0))
    ensures forall b :: b != a ==> Get(r, b) == Get(m, b)
  {
    var s := Get(m, a);
    m[a := s.(inC := s.inC + 1, inA := s.inA + v)]
  }

  /** `s.outC++`/`s.inC++` for the non-token ends of one record. */
  function Credit(m: Ledger, token: string, from: string, to: string, v: nat): (r: Ledger)
    ensures r.Keys == m.Keys + (if from != token then {from} else {}) + (if to != token then {to} else {})
  {
    var m1 := if from != token then CreditOut(m, from, v) else m;
    if to != token then CreditIn(m1, to, v) else m1
  }

  /** Both credits of one record, seen from address `a`. */
  lemma CreditAt(m: Ledger, token: string, from: string, to: string, v: nat, a: string)
    ensures var sent, received := from == a && a != token, to == a && a != token;
            var r := Get(Credit(m, token, from, to, v), a);
            && r.inC == Get(m, a).inC + (if received then 1 else 0)
            && r.outC == Get(m, a).outC + (if sent then 1 else 0)
            && r.inA == Get(m, a).inA + (if received then v else 0)
            && r.outA == Get(m, a).outA + (if sent then v else 0)
  {
  }

  lemma CreditDelta(m: Ledger, token: string, from: string, to: string, v: nat, a: string)
    ensures Get(Credit(m, token, from, to, v), a) == Add(Get(m, a), Delta(token, from, to, v, a))
  {
    CreditAt(m, token, from, to, v, a);
    AddFields(Get(Credit(m, token, from, to, v), a), Get(m, a), Delta(token, from, to, v, a));
  }

  /** Counters that agree field by field with a sum are that sum. */
  lemma AddFields(r: Stats, g: Stats, d: Stats)
    requires r.inC == g.inC + d.inC && r.outC == g.outC + d.outC
    requires r.inA == g.inA + d.inA && r.outA == g.outA + d.outA
    ensures r == Add(g, d)
  {
  }

  /** The update app.js makes for one contributing record: every address moves by exactly
      its `EventDelta`, and entries appear only for the sender and receiver that are not the token. */
  function Apply(token: string, e: Event, m: Ledger): (r: Ledger)
    ensures forall a :: Get(r, a) == Add(Get(m, a), EventDelta(token, e, a))
    ensures r.Keys == m.Keys + (if Lower(e.from) != token then {Lower(e.from)} else {})
                             + (if Lower(e.to) != token then {Lower(e.to)} else {})
  {
    var from, to := Lower(e.from), Lower(e.to);
    var r := Credit(m, token, from, to, e.value);
    assert r.Keys == m.Keys + (if from != token then {from} else {}) + (if to != token then {to} else {});
    assert forall a :: Get(r, a) == Add(Get(m, a), EventDelta(token, e, a)) by {
      forall a
        ensures Get(r, a) == Add(Get(m, a), EventDelta(token, e, a))
      {
        CreditDelta(m, token, from, to, e.value, a);
      }
    }
    r
  }

  /** The records applied one after another, oldest position first. */
  function Tally(token: string, evs: seq<Event>, m: Ledger): Ledger
    decreases |evs|
  {
    if evs == [] then m else Tally(token, evs[1..], Apply(token, evs[0], m))
  }

  /** The contributing records, in order. */
  function Counted(w: Window, evs: seq<Event>): (r: seq<Event>)
    ensures forall e :: e in r <==> e in evs && Contributes(w, e)
    decreases |evs|
  {
    if evs == [] then []
    else (if Contributes(w, evs[0]) then [evs[0]] else []) + Counted(w, evs[1..])
  }

  /** The position of the first record that ends the scan, or `|evs|` if none does. */
  function FirstStop(w: Window, evs: seq<Event>): (k: nat)
    ensures k <= |evs|
    ensures k < |evs| ==> Stops(w, evs[k])
    ensures forall j :: 0 <= j < k ==> !Stops(w, evs[j])
    decreases |evs|
  {
    if evs == [] || Stops(w, evs[0]) then 0 else 1 + FirstStop(w, evs[1..])
  }

  /** The records the scan looks at, in feed order: every record of every page it reaches,
      up to (not including) the first one that ends the scan; a page is reached only while
      each earlier page carried a further offset. A failed page on the way throws. */
  function Seen(w: Window, feed: seq<Response<Event>>): Result<seq<Event>>
    requires Ends(feed)
    decreases |feed|
  {
    match feed[0]
    case Failed(body) => Err(body)
    case Page(evs, _) =>
      var k := FirstStop(w, evs);
      if k < |evs| || !HasNext(feed[0]) then Ok(evs[..k])
      else
        match Seen(w, feed[1..])
        case Ok(rest) => Ok(evs + rest)
        case Err(body) => Err(body)
  }

  /** The ledger reached by counting, on top of `m`, the contributing records among those the scan looks at. */
  function Resume(token: string, w: Window, feed: seq<Response<Event>>, m: Ledger): Result<Ledger>
    requires Ends(feed)
  {
    match Seen(w, feed)
    case Ok(evs) => Ok(Tally(token, Counted(w, evs), m))
    case Err(body) => Err(body)
  }

  /** The reference result of `aggregateTransfers(token, _, fromMs, toMs)`. */
  function Aggregate(token: string, w: Window, feed: seq<Response<Event>>): Result<Ledger>
    requires Ends(feed)
  {
    Resume(token, w, feed, map[])
  }

  lemma {:induction false} TallyConcat(token: string, a: seq<Event>, b: seq<Event>, m: Ledger)
    ensures Tally(token, a + b, m) == Tally(token, b, Tally(token, a, m))
    decreases |a|
  {
    if a == [] {
      assert a + b == b;
    } else {
      assert (a + b)[0] == a[0];
      assert (a + b)[1..] == a[1..] + b;
      TallyConcat(token, a[1..], b, Apply(token, a[0], m));
    }
  }

  lemma {:induction false} CountedConcat(w: Window, a: seq<Event>, b: seq<Event>)
    ensures Counted(w, a + b) == Counted(w, a) + Counted(w, b)
    decreases |a|
  {
    if a == [] {
      assert a + b == b;
    } else {
      assert (a + b)[0] == a[0];
      assert (a + b)[1..] == a[1..] + b;
      CountedConcat(w, a[1..], b);
    }
  }

  /** Counting one more record of the current page. */
  lemma TallyOneMore(token: string, w: Window, evs: seq<Event>, j: nat, m0: Ledger)
    requires j < |evs|
    ensures Tally(token, Counted(w, evs[..j + 1]), m0) ==
            (var m := Tally(token, Counted(w, evs[..j]), m0);
             if Contributes(w, evs[j]) then Apply(token, evs[j], m) else m)
  {
    assert evs[..j + 1] == evs[..j] + [evs[j]];
    CountedConcat(w, evs[..j], [evs[j]]);
    TallyConcat(token, Counted(w, evs[..j]), Counted(w, [evs[j]]), m0);
  }

  /** A page read to its end that carries a further offset hands its counts on to the next page. */
  lemma ResumeNextPage(token: string, w: Window, feed: seq<Response<Event>>, m: Ledger)
    requires Ends(feed) && feed[0].Page? && HasNext(feed[0])
    requires FirstStop(w, feed[0].items) == |feed[0].items|
    ensures Ends(feed[1..])
    ensures Resume(token, w, feed, m) == Resume(token, w, feed[1..], Tally(token, Counted(w, feed[0].items), m))
  {
    var evs := feed[0].items;
    match Seen(w, feed[1..])
    case Ok(rest) =>
      CountedConcat(w, evs, rest);
      TallyConcat(token, Counted(w, evs), Counted(w, rest), m);
    case Err(_) =>
  }

  /** `ResumeNextPage` at position `i` of the feed, after the `for` loop has run over the whole page. */
  lemma ResumeAt(token: string, w: Window, feed: seq<Response<Event>>, i: nat, m0: Ledger, m: Ledger)
    requires i < |feed| && Ends(feed[i..]) && feed[i].Page? && HasNext(feed[i])
    requires FirstStop(w, feed[i].items) == |feed[i].items|
    requires m == Tally(token, Counted(w, feed[i].items[..FirstStop(w, feed[i].items)]), m0)
    ensures i + 1 < |feed| && Ends(feed[i + 1..])
    ensures Resume(token, w, feed[i..], m0) == Resume(token, w, feed[i + 1..], m)
  {
    var evs := feed[i].items;
    assert evs[..|evs|] == evs;
    ResumeNextPage(token, w, feed[i..], m0);
    assert feed[i..][1..] == feed[i + 1..];
  }

  /** A response that ends the scan: a failure, a page holding a record older than the window,
      or a page without a further offset. */
  lemma ResumeLastPage(token: string, w: Window, feed: seq<Response<Event>>, m: Ledger)
    requires Ends(feed)
    requires feed[0].Failed? || FirstStop(w, feed[0].items) < |feed[0].items| || !HasNext(feed[0])
    ensures feed[0].Failed? ==> Resume(token, w, feed, m) == Err(feed[0].body)
    ensures feed[0].Page? ==>
              Resume(token, w, feed, m) == Ok(Tally(token, Counted(w, feed[0].items[..FirstStop(w, feed[0].items)]), m))
  {
  }

  /** The `for` loop over one page's records: it counts the contributing records before the
      first one that ends the scan, and reports whether such a record was met. */
  method ScanPage(token: string, w: Window, evs: seq<Event>, m0: Ledger) returns (m: Ledger, stopped: bool)
    ensures stopped <==> FirstStop(w, evs) < |evs|
    ensures m == Tally(token, Counted(w, evs[..FirstStop(w, evs)]), m0)
  {
    m := m0;
    var j := 0;
    stopped := false;
    while j < |evs| && !stopped
      invariant 0 <= j <= FirstStop(w, evs)
      invariant stopped ==> j == FirstStop(w, evs) < |evs|
      invariant m == Tally(token, Counted(w, evs[..j]), m0)
      decreases |evs| - j, if stopped then 0 else 1
    {
      var e := evs[j];
      TallyOneMore(token, w, evs, j, m0);
      if e.assetType != Erc20 {
        j := j + 1;
      } else if e.ts < w.fromMs {
        stopped := true;
      } else if e.ts > w.toMs {
        j := j + 1;
      } else {
        m := Apply(token, e, m);
        j := j + 1;
      }
    }
  }

  /** The `while(url)` loop of `aggregateTransfers`: pages in request order until a record ends
      the scan, a page has no further offset, or a response fails. */
  method AggregateTransfers(token: string, w: Window, feed: seq<Response<Event>>) returns (r: Result<Ledger>)
    requires Ends(feed)
    ensures r == Aggregate(token, w, feed)
  {
    var m: Ledger := map[];
    var i := 0;
    var scanning := true;
    r := Ok(m);
    while scanning
      invariant 0 <= i < |feed| && Ends(feed[i..])
      invariant scanning ==> Resume(token, w, feed[i..], m) == Aggregate(token, w, feed)
      invariant !scanning ==> r == Aggregate(token, w, feed)
      decreases |feed| - i, if scanning then 1 else 0
    {
      match feed[i] {
        case Failed(body) =>
          ResumeLastPage(token, w, feed[i..], m);
          r := Err(body);
          scanning := false;
        case Page(evs, _) =>
          ghost var m0 := m;
          var stopped;
          m, stopped := ScanPage(token, w, evs, m);
          if stopped || !HasNext(feed[i]) {
            ResumeLastPage(token, w, feed[i..], m0);
            r := Ok(m);
            scanning := false;
          } else {
            ResumeAt(token, w, feed, i, m0, m);
            i := i + 1;
          }
      }
    }
  }
}
