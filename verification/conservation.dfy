/** Transfers between addresses balance: summed over the whole result of `aggregateTransfers`,
    what came in equals what went out, up to the records that involve the token's own address. */
module Conservation {
  import opened Ascii
  import opened Paging
  import opened Window
  import opened Activity

  /** One of the four counters of an entry. */
  datatype Counter = InCount | OutCount | InAmount | OutAmount

  function Field(s: Stats, c: Counter): nat
  {
    match c
    case InCount => s.inC
    case OutCount => s.outC
    case InAmount => s.inA
    case OutAmount => s.outA
  }

  /** The sum of one counter over every entry of a ledger. */
  ghost function Total(m: Ledger, c: Counter): nat
    decreases |m|
  {
    if m == map[] then 0
    else
      var a :| a in m;
      assert |m - {a}| < |m| by { assert (m - {a}).Keys == m.Keys - {a}; }
      Field(m[a], c) + Total(m - {a}, c)
  }

  /** The total does not depend on which entry the definition picks first. */
  lemma {:induction false} TotalRemove(m: Ledger, a: string, c: Counter)
    requires a in m
    ensures Total(m, c) == Field(m[a], c) + Total(m - {a}, c)
    decreases |m|
  {
    var b :| b in m && Total(m, c) == Field(m[b], c) + Total(m - {b}, c);
    if b != a {
      var mb, ma := m - {b}, m - {a};
      assert |mb| < |m| by { assert mb.Keys == m.Keys - {b}; }
      assert |ma| < |m| by { assert ma.Keys == m.Keys - {a}; }
      assert a in mb && b in ma;
      TotalRemove(mb, a, c);
      TotalRemove(ma, b, c);
      assert mb - {a} == ma - {b};
    }
  }

  /** Replacing (or adding) the entry of `a` moves the total by the change of that entry. */
  lemma TotalUpdate(m: Ledger, a: string, s: Stats, c: Counter)
    ensures Total(m[a := s], c) == Total(m, c) - Field(Get(m, a), c) + Field(s, c)
  {
    var r := m[a := s];
    TotalRemove(r, a, c);
    if a in m {
      TotalRemove(m, a, c);
      assert r - {a} == m - {a};
    } else {
      assert r - {a} == m;
    }
  }

  /** How much one contributing record adds to the total of a counter: one transfer and its
      value on the receiving side and on the sending side, unless that side is the token. */
  function Moved(token: string, e: Event, c: Counter): nat
  {
    var received, sent := Lower(e.to) != token, Lower(e.from) != token;
    match c
    case InCount => if received then 1 else 0
    case OutCount => if sent then 1 else 0
    case InAmount => if received then e.value else 0
    case OutAmount => if sent then e.value else 0
  }

  /** What a transfer out of value `v` adds to counter `c` of the sender. */
  function OutMove(v: nat, c: Counter): nat
  {
    match c
    case OutCount => 1
    case OutAmount => v
    case _ => 0
  }

  /** What a transfer in of value `v` adds to counter `c` of the receiver. */
  function InMove(v: nat, c: Counter): nat
  {
    match c
    case InCount => 1
    case InAmount => v
    case _ => 0
  }

  lemma CreditOutTotal(m: Ledger, a: string, v: nat, c: Counter)
    ensures Total(CreditOut(m, a, v), c) == Total(m, c) + OutMove(v, c)
  {
    var s := Get(m, a);
    TotalUpdate(m, a, s.(outC := s.outC + 1, outA := s.outA + v), c);
  }

  lemma CreditInTotal(m: Ledger, a: string, v: nat, c: Counter)
    ensures Total(CreditIn(m, a, v), c) == Total(m, c) + InMove(v, c)
  {
    var s := Get(m, a);
    TotalUpdate(m, a, s.(inC := s.inC + 1, inA := s.inA + v), c);
  }

  lemma ApplyTotal(token: string, e: Event, m: Ledger, c: Counter)
    ensures Total(Apply(token, e, m), c) == Total(m, c) + Moved(token, e, c)
  {
    var from, to, v := Lower(e.from), Lower(e.to), e.value;
    var m1 := if from != token then CreditOut(m, from, v) else m;
    assert Apply(token, e, m) == if to != token then CreditIn(m1, to, v) else m1;
    assert Total(m1, c) == Total(m, c) + (if from != token then OutMove(v, c) else 0) by {
      if from != token {
        CreditOutTotal(m, from, v, c);
      }
    }
    if to != token {
      CreditInTotal(m1, to, v, c);
    }
  }

  /** The sum of `Moved` over a run of records. */
  function MovedAll(token: string, evs: seq<Event>, c: Counter): nat
    decreases |evs|
  {
    if evs == [] then 0 else Moved(token, evs[0], c) + MovedAll(token, evs[1..], c)
  }

  lemma {:induction false} TallyTotal(token: string, evs: seq<Event>, m: Ledger, c: Counter)
    ensures Total(Tally(token, evs, m), c) == Total(m, c) + MovedAll(token, evs, c)
    decreases |evs|
  {
    if evs != [] {
      ApplyTotal(token, evs[0], m, c);
      TallyTotal(token, evs[1..], Apply(token, evs[0], m), c);
    }
  }

  /** Neither end of any record is the token's own address. */
  predicate AvoidsToken(token: string, evs: seq<Event>)
  {
    forall i :: 0 <= i < |evs| ==> Lower(evs[i].from) != token && Lower(evs[i].to) != token
  }

  /** The sum of the values of a run of records. */
  function Volume(evs: seq<Event>): nat
    decreases |evs|
  {
    if evs == [] then 0 else evs[0].value + Volume(evs[1..])
  }

  lemma {:induction false} MovedAvoiding(token: string, evs: seq<Event>)
    requires AvoidsToken(token, evs)
    ensures MovedAll(token, evs, InCount) == MovedAll(token, evs, OutCount) == |evs|
    ensures MovedAll(token, evs, InAmount) == MovedAll(token, evs, OutAmount) == Volume(evs)
    decreases |evs|
  {
    if evs != [] {
      assert AvoidsToken(token, evs[1..]) by {
        forall i | 0 <= i < |evs[1..]|
          ensures Lower(evs[1..][i].from) != token && Lower(evs[1..][i].to) != token
        {
          assert evs[1..][i] == evs[i + 1];
        }
      }
      MovedAvoiding(token, evs[1..]);
    }
  }

  /** Over the whole result, each counter totals what the counted records move; when no counted
      record involves the token's own address, transfers in and out balance, both in number
      (the number of counted records) and in amount (their total value). */
  lemma AggregateTotals(token: string, w: Window, feed: seq<Response<Event>>)
    requires Ends(feed) && Aggregate(token, w, feed).Ok?
    ensures Seen(w, feed).Ok?
    ensures var evs, l := Counted(w, Seen(w, feed).value), Aggregate(token, w, feed).value;
            forall c :: Total(l, c) == MovedAll(token, evs, c)
    ensures var evs, l := Counted(w, Seen(w, feed).value), Aggregate(token, w, feed).value;
            AvoidsToken(token, evs) ==>
              && Total(l, InCount) == Total(l, OutCount) == |evs|
              && Total(l, InAmount) == Total(l, OutAmount) == Volume(evs)
  {
    var evs := Counted(w, Seen(w, feed).value);
    forall c | true
      ensures Total(Tally(token, evs, map[]), c) == MovedAll(token, evs, c)
    {
      TallyTotal(token, evs, map[], c);
    }
    if AvoidsToken(token, evs) {
      MovedAvoiding(token, evs);
    }
  }
}
