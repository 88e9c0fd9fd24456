/** Step 3 of `run` in app.js: one row per holder, joined with its transfer counters, and
    the rows ordered by balance, largest first. */
module Table {
  import opened Ascii
  import opened Activity
  import opened Holders

  /** One table row: the holder's address as given, its balance, and its four counters. */
  datatype Row = Row(owner: string, balance: nat, inC: nat, inA: nat, outC: nat, outA: nat)

  /** The counters of a row, in the shape of a ledger entry. */
  function Counters(r: Row): Stats
  {
    Stats(r.inC, r.outC, r.inA, r.outA)
  }

  /** The row of one holder: its entry is looked up under the lower-cased address, and a
      missing entry (`|| {}` then `|| 0`) gives zero counts and zero amounts. */
  function Join(stats: Ledger, h: Holder): (r: Row)
    ensures r.owner == h.wallet && r.balance == h.balance
    ensures Lower(h.wallet) in stats ==> Counters(r) == stats[Lower(h.wallet)]
    ensures Lower(h.wallet) !in stats ==> Counters(r) == Zero
  {
    var s := Get(stats, Lower(h.wallet));
    Row(h.wallet, h.balance, s.inC, s.inA, s.outC, s.outA)
  }

  /** `holders.map(...)`: exactly one row per holder, in the holders' order. */
  function Merge(stats: Ledger, holders: seq<Holder>): (rows: seq<Row>)
    ensures |rows| == |holders|
    ensures forall i :: 0 <= i < |holders| ==> rows[i] == Join(stats, holders[i])
  {
    seq(|holders|, i requires 0 <= i < |holders| => Join(stats, holders[i]))
  }

  /** The comparator `(a,b) => Number(b.balance - a.balance)`, up to its sign: negative when
      `a` belongs first, positive when `b` does, zero for equal balances. */
  function Compare(a: Row, b: Row): int
  {
    b.balance - a.balance
  }

  /** No pair of rows is out of order under `Compare`: balances never increase. */
  predicate Sorted(s: seq<Row>)
  {
    forall i, j :: 0 <= i < j < |s| ==> Compare(s[i], s[j]) <= 0
  }

  /** Puts `x` in front of the first row whose balance is not above its own; `x` stays ahead
      of rows it ties with, as it came first. */
  function Insert(x: Row, s: seq<Row>): (r: seq<Row>)
    ensures multiset(r) == multiset(s) + multiset{x}
    ensures Sorted(s) ==> Sorted(r)
    decreases |s|
  {
    if s == [] || x.balance >= s[0].balance then
      InsertFront(x, s);
      [x] + s
    else
      var t := Insert(x, s[1..]);
      assert s == [s[0]] + s[1..];
      InsertBehind(x, s, t);
      [s[0]] + t
  }

  /** A row whose balance is not below the first one's can go in front. */
  lemma InsertFront(x: Row, s: seq<Row>)
    requires s == [] || x.balance >= s[0].balance
    ensures Sorted(s) ==> Sorted([x] + s)
  {
    if Sorted(s) {
      forall k | 0 < k < |s|
        ensures s[0].balance >= s[k].balance
      {
        assert Compare(s[0], s[k]) <= 0;
      }
      SortedCons(x, s);
    }
  }

  /** A row whose balance is below the first one's goes behind it, into the rest. */
  lemma InsertBehind(x: Row, s: seq<Row>, t: seq<Row>)
    requires s != [] && x.balance < s[0].balance
    requires multiset(t) == multiset(s[1..]) + multiset{x}
    requires Sorted(s[1..]) ==> Sorted(t)
    ensures Sorted(s) ==> Sorted([s[0]] + t)
  {
    if Sorted(s) {
      HeadStaysAhead(s, x, t);
      SortedCons(s[0], t);
    }
  }

  lemma HeadStaysAhead(s: seq<Row>, x: Row, t: seq<Row>)
    requires s != [] && Sorted(s) && x.balance < s[0].balance
    requires multiset(t) == multiset(s[1..]) + multiset{x}
    ensures forall k :: 0 <= k < |t| ==> s[0].balance >= t[k].balance
  {
    forall k | 0 <= k < |t|
      ensures s[0].balance >= t[k].balance
    {
      assert t[k] in multiset(t);
      if t[k] != x {
        assert t[k] in multiset(s[1..]);
        var j :| 0 <= j < |s[1..]| && s[1..][j] == t[k];
        assert s[j + 1] == t[k];
      }
    }
  }

  lemma SortedCons(h: Row, t: seq<Row>)
    requires Sorted(t) && forall k :: 0 <= k < |t| ==> h.balance >= t[k].balance
    ensures Sorted([h] + t)
  {
    forall i, j | 0 <= i < j < |[h] + t|
      ensures Compare(([h] + t)[i], ([h] + t)[j]) <= 0
    {
      if i > 0 {
        assert ([h] + t)[i] == t[i - 1];
      }
      assert ([h] + t)[j] == t[j - 1];
    }
  }

  /** `Array.prototype.sort` with the comparator above. The sort is stable (ECMAScript 2019
      onward), so it is modelled as an insertion sort that keeps rows of equal balance in
      their original order. */
  function SortByBalance(s: seq<Row>): (r: seq<Row>)
    ensures multiset(r) == multiset(s)
    ensures Sorted(r)
    decreases |s|
  {
    if s == [] then []
    else
      assert s == [s[0]] + s[1..];
      Insert(s[0], SortByBalance(s[1..]))
  }

  /** The rows of one balance, in order. */
  function WithBalance(s: seq<Row>, b: nat): seq<Row>
    decreases |s|
  {
    if s == [] then []
    else (if s[0].balance == b then [s[0]] else []) + WithBalance(s[1..], b)
  }

  lemma {:induction false} InsertWithBalance(x: Row, s: seq<Row>, b: nat)
    ensures WithBalance(Insert(x, s), b) == (if x.balance == b then [x] else []) + WithBalance(s, b)
    decreases |s|
  {
    if s == [] || x.balance >= s[0].balance {
      assert ([x] + s)[1..] == s;
    } else {
      var t := Insert(x, s[1..]);
      assert ([s[0]] + t)[1..] == t;
      InsertWithBalance(x, s[1..], b);
    }
  }

  /** Stability: for every balance, the rows with that balance come out in the order they went in. */
  lemma {:induction false} SortIsStable(s: seq<Row>, b: nat)
    ensures WithBalance(SortByBalance(s), b) == WithBalance(s, b)
    decreases |s|
  {
    if s != [] {
      SortIsStable(s[1..], b);
      InsertWithBalance(s[0], SortByBalance(s[1..]), b);
    }
  }

  /** The rows as `run` renders them. */
  function Report(stats: Ledger, holders: seq<Holder>): (rows: seq<Row>)
    ensures multiset(rows) == multiset(Merge(stats, holders))
    ensures Sorted(rows)
  {
    SortByBalance(Merge(stats, holders))
  }

  /** Every holder has its row in the report, and every row of the report is some holder's. */
  lemma ReportRows(stats: Ledger, holders: seq<Holder>)
    ensures |Report(stats, holders)| == |holders|
    ensures forall i :: 0 <= i < |holders| ==> Join(stats, holders[i]) in Report(stats, holders)
    ensures forall r :: r in Report(stats, holders) ==> exists i :: 0 <= i < |holders| && r == Join(stats, holders[i])
  {
    var rows, merged := Report(stats, holders), Merge(stats, holders);
    assert |rows| == |multiset(rows)| == |multiset(merged)| == |merged|;
    forall i | 0 <= i < |holders|
      ensures Join(stats, holders[i]) in rows
    {
      assert merged[i] in multiset(merged);
    }
    forall r | r in rows
      ensures exists i :: 0 <= i < |holders| && r == Join(stats, holders[i])
    {
      assert r in multiset(merged);
      var i :| 0 <= i < |merged| && merged[i] == r;
    }
  }
}
