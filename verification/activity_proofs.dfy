/** What `aggregateTransfers` promises: which records count, that the scan's early exit is
    final, what each address ends up with, and that transfers between holders balance. */
module ActivityProofs {
  import opened Wrappers
  import opened Ascii
  import opened Paging
  import opened Window
  import opened Activity

  /* ---------- records the scan passes over ---------- */

  /** A record the scan steps over without counting it and without stopping: not an ERC-20
      transfer (`continue`), or an ERC-20 transfer newer than the window (`ts > toMs`) that
      is not also older than its start. */
  predicate PassedOver(w: Window, e: Event)
  {
    e.assetType != Erc20 || (e.ts > w.toMs && e.ts >= w.fromMs)
  }

  lemma {:induction false} FirstStopConcat(w: Window, a: seq<Event>, b: seq<Event>)
    ensures FirstStop(w, a + b) == if FirstStop(w, a) < |a| then FirstStop(w, a) else |a| + FirstStop(w, b)
    decreases |a|
  {
    if a == [] {
      assert a + b == b;
    } else {
      assert (a + b)[0] == a[0];
      assert (a + b)[1..] == a[1..] + b;
      FirstStopConcat(w, a[1..], b);
    }
  }

  /** Two feeds whose scans count the same records, or fail with the same message. */
  predicate SameCounts(w: Window, f1: seq<Response<Event>>, f2: seq<Response<Event>>)
    requires Ends(f1) && Ends(f2)
  {
    match Seen(w, f1)
    case Err(b) => Seen(w, f2) == Err(b)
    case Ok(s1) => Seen(w, f2).Ok? && Counted(w, s1) == Counted(w, Seen(w, f2).value)
  }

  /** Within one page, a passed-over record changes neither whether the page stops the scan
      nor which records of the page count. */
  lemma PassedOverInPage(w: Window, a: seq<Event>, e: Event, b: seq<Event>)
    requires PassedOver(w, e)
    ensures FirstStop(w, a + [e] + b) < |a + [e] + b| <==> FirstStop(w, a + b) < |a + b|
    ensures Counted(w, (a + [e] + b)[..FirstStop(w, a + [e] + b)]) == Counted(w, (a + b)[..FirstStop(w, a + b)])
  {
    if FirstStop(w, a) < |a| {
      PassedOverAfterStop(w, a, e, b);
    } else {
      PassedOverBeforeStop(w, a, e, b);
    }
  }

  /** The page stops the scan before reaching the passed-over record. */
  lemma PassedOverAfterStop(w: Window, a: seq<Event>, e: Event, b: seq<Event>)
    requires FirstStop(w, a) < |a|
    ensures FirstStop(w, a + [e] + b) == FirstStop(w, a + b) < |a + b|
    ensures (a + [e] + b)[..FirstStop(w, a + [e] + b)] == (a + b)[..FirstStop(w, a + b)]
  {
    StopBefore(w, a, [e] + b);
    StopBefore(w, a, b);
    assert a + [e] + b == a + ([e] + b);
  }

  /** The scan reaches the passed-over record and steps over it. */
  lemma PassedOverBeforeStop(w: Window, a: seq<Event>, e: Event, b: seq<Event>)
    requires PassedOver(w, e) && FirstStop(w, a) == |a|
    ensures FirstStop(w, a + [e] + b) == FirstStop(w, a + b) + 1
    ensures Counted(w, (a + [e] + b)[..FirstStop(w, a + [e] + b)]) == Counted(w, (a + b)[..FirstStop(w, a + b)])
  {
    var kb := FirstStop(w, b);
    ConcatShape(a, e, b, kb);
    NoStopBefore(w, a, [e] + b);
    NoStopBefore(w, a, b);
    FirstStopPassed(w, e, b);
    CountedSkips(w, a, e, b[..kb]);
  }

  lemma ConcatShape<T>(a: seq<T>, e: T, b: seq<T>, k: nat)
    requires k <= |b|
    ensures a + [e] + b == a + ([e] + b)
    ensures ([e] + b)[..1 + k] == [e] + b[..k]
    ensures a + ([e] + b[..k]) == a + [e] + b[..k]
  {
  }

  lemma FirstStopPassed(w: Window, e: Event, b: seq<Event>)
    requires !Stops(w, e)
    ensures FirstStop(w, [e] + b) == 1 + FirstStop(w, b)
  {
    assert ([e] + b)[1..] == b;
  }

  /** A stop inside `a` is the first stop of `a + b`, and `b` is not reached. */
  lemma StopBefore(w: Window, a: seq<Event>, b: seq<Event>)
    requires FirstStop(w, a) < |a|
    ensures FirstStop(w, a + b) == FirstStop(w, a)
    ensures (a + b)[..FirstStop(w, a)] == a[..FirstStop(w, a)]
  {
    FirstStopConcat(w, a, b);
  }

  /** Without a stop inside `a`, the scan of `a + b` reads all of `a` and goes on into `b`. */
  lemma NoStopBefore(w: Window, a: seq<Event>, b: seq<Event>)
    requires FirstStop(w, a) == |a|
    ensures FirstStop(w, a + b) == |a| + FirstStop(w, b)
    ensures (a + b)[..FirstStop(w, a + b)] == a + b[..FirstStop(w, b)]
  {
    FirstStopConcat(w, a, b);
  }

  lemma CountedSkips(w: Window, a: seq<Event>, e: Event, t: seq<Event>)
    requires !Contributes(w, e)
    ensures Counted(w, a + [e] + t) == Counted(w, a + t)
  {
    CountedConcat(w, a + [e], t);
    CountedConcat(w, a, [e]);
    CountedConcat(w, a, t);
    assert Counted(w, [e]) == [];
    assert Counted(w, a) + [] == Counted(w, a);
  }

  /** A record that is not an ERC-20 transfer, or an ERC-20 record newer than `toMs` and not
      older than `fromMs`, can be removed from any page of the feed without changing the
      outcome: the scan neither counts it nor stops at it (app.js `continue` statements). */
  lemma {:induction false} PassedOverIgnored(token: string, w: Window, pre: seq<Response<Event>>,
                                             a: seq<Event>, e: Event, b: seq<Event>, next: Option<string>,
                                             post: seq<Response<Event>>)
    requires PassedOver(w, e)
    requires Ends(pre + [Page(a + [e] + b, next)] + post)
    ensures Ends(pre + [Page(a + b, next)] + post)
    ensures Aggregate(token, w, pre + [Page(a + [e] + b, next)] + post) ==
            Aggregate(token, w, pre + [Page(a + b, next)] + post)
  {
    PassedOverSameCounts(w, pre, a, e, b, next, post);
  }

  lemma {:induction false} PassedOverSameCounts(w: Window, pre: seq<Response<Event>>,
                                                a: seq<Event>, e: Event, b: seq<Event>, next: Option<string>,
                                                post: seq<Response<Event>>)
    requires PassedOver(w, e)
    requires Ends(pre + [Page(a + [e] + b, next)] + post)
    ensures Ends(pre + [Page(a + b, next)] + post)
    ensures SameCounts(w, pre + [Page(a + [e] + b, next)] + post, pre + [Page(a + b, next)] + post)
    decreases |pre|
  {
    var p1, p2 := Page(a + [e] + b, next), Page(a + b, next);
    if pre == [] {
      assert pre + [p1] + post == [p1] + post;
      assert pre + [p2] + post == [p2] + post;
      PassedOverInPage(w, a, e, b);
      FirstPageSwap(w, a + [e] + b, a + b, next, post);
    } else {
      var g1, g2 := pre[1..] + [p1] + post, pre[1..] + [p2] + post;
      assert pre + [p1] + post == [pre[0]] + g1;
      assert pre + [p2] + post == [pre[0]] + g2;
      if HasNext(pre[0]) {
        assert Ends(g1) by {
          assert ([pre[0]] + g1)[1..] == g1;
        }
        PassedOverSameCounts(w, pre[1..], a, e, b, next, post);
      }
      SameCountsCons(w, pre[0], g1, g2);
    }
  }

  /** Replacing the first page by one that stops the scan in the same case and counts the same
      records keeps the counts. */
  lemma FirstPageSwap(w: Window, e1: seq<Event>, e2: seq<Event>, next: Option<string>, post: seq<Response<Event>>)
    requires FirstStop(w, e1) < |e1| <==> FirstStop(w, e2) < |e2|
    requires Counted(w, e1[..FirstStop(w, e1)]) == Counted(w, e2[..FirstStop(w, e2)])
    requires Ends([Page(e1, next)] + post)
    ensures Ends([Page(e2, next)] + post)
    ensures SameCounts(w, [Page(e1, next)] + post, [Page(e2, next)] + post)
  {
    var f1, f2 := [Page(e1, next)] + post, [Page(e2, next)] + post;
    assert f1[1..] == post && f2[1..] == post;
    if FirstStop(w, e1) == |e1| && HasNext(f1[0]) {
      assert e1[..|e1|] == e1 && e2[..|e2|] == e2;
      match Seen(w, post)
      case Ok(rest) =>
        CountedConcat(w, e1, rest);
        CountedConcat(w, e2, rest);
      case Err(_) =>
    }
  }

  /** Putting the same page in front of two feeds with the same counts keeps the counts. */
  lemma SameCountsCons(w: Window, p: Response<Event>, g1: seq<Response<Event>>, g2: seq<Response<Event>>)
    requires Ends([p] + g1)
    requires HasNext(p) ==> Ends(g1) && Ends(g2) && SameCounts(w, g1, g2)
    ensures Ends([p] + g2)
    ensures SameCounts(w, [p] + g1, [p] + g2)
  {
    assert ([p] + g1)[1..] == g1 && ([p] + g2)[1..] == g2;
    if p.Page? && HasNext(p) && FirstStop(w, p.items) == |p.items| {
      match Seen(w, g1)
      case Ok(r1) =>
        CountedConcat(w, p.items, r1);
        CountedConcat(w, p.items, Seen(w, g2).value);
      case Err(_) =>
    }
  }

  /* ---------- the early exit ---------- */

  /** Once the scan meets an ERC-20 record older than the window, nothing after it, later on the
      same page or on any later page, matters: the feed may as well end right there (app.js `return m`). */
  lemma {:induction false} StopIsFinal(token: string, w: Window, pre: seq<Response<Event>>,
                                       a: seq<Event>, e: Event, b: seq<Event>, next: Option<string>,
                                       post: seq<Response<Event>>)
    requires Stops(w, e)
    requires Ends(pre + [Page(a + [e] + b, next)] + post)
    ensures Ends(pre + [Page(a + [e], None)])
    ensures Aggregate(token, w, pre + [Page(a + [e] + b, next)] + post) ==
            Aggregate(token, w, pre + [Page(a + [e], None)])
  {
    StopIsFinalSeen(w, pre, a, e, b, next, post);
  }

  lemma {:induction false} StopIsFinalSeen(w: Window, pre: seq<Response<Event>>,
                                           a: seq<Event>, e: Event, b: seq<Event>, next: Option<string>,
                                           post: seq<Response<Event>>)
    requires Stops(w, e)
    requires Ends(pre + [Page(a + [e] + b, next)] + post)
    ensures Ends(pre + [Page(a + [e], None)])
    ensures Seen(w, pre + [Page(a + [e] + b, next)] + post) == Seen(w, pre + [Page(a + [e], None)])
    decreases |pre|
  {
    var p1, p2 := Page(a + [e] + b, next), Page(a + [e], None);
    var f1, f2 := pre + [p1] + post, pre + [p2];
    if pre == [] {
      assert f1[0] == p1 && f2[0] == p2;
      FirstStopConcat(w, a + [e], b);
      FirstStopConcat(w, a, [e]);
      var k := FirstStop(w, a + [e]);
      assert k <= |a|;
      assert (a + [e] + b)[..k] == (a + [e])[..k];
    } else {
      assert f1[0] == pre[0] && f2[0] == pre[0];
      assert f1[1..] == pre[1..] + [p1] + post;
      assert f2[1..] == pre[1..] + [p2];
      if HasNext(pre[0]) {
        StopIsFinalSeen(w, pre[1..], a, e, b, next, post);
      }
    }
  }

  /* ---------- what every address ends up with ---------- */

  /** The sum of the deltas of a run of records for address `a`. */
  function Flow(token: string, evs: seq<Event>, a: string): Stats
    decreases |evs|
  {
    if evs == [] then Zero else Add(EventDelta(token, evs[0], a), Flow(token, evs[1..], a))
  }

  lemma AddZero(x: Stats)
    ensures Add(x, Zero) == x && Add(Zero, x) == x
  {
  }

  lemma AddAssoc(x: Stats, y: Stats, z: Stats)
    ensures Add(Add(x, y), z) == Add(x, Add(y, z))
  {
  }

  /** Counting a run of records moves each address by the run's `Flow`. */
  lemma {:induction false} TallyFlow(token: string, evs: seq<Event>, m: Ledger, a: string)
    ensures Get(Tally(token, evs, m), a) == Add(Get(m, a), Flow(token, evs, a))
    decreases |evs|
  {
    if evs == [] {
      AddZero(Get(m, a));
    } else {
      TallyFlow(token, evs[1..], Apply(token, evs[0], m), a);
      AddAssoc(Get(m, a), EventDelta(token, evs[0], a), Flow(token, evs[1..], a));
    }
  }

  /** Each address's counters are the sums, over the counted records, of its transfers out as
      lower-cased sender and in as lower-cased receiver, the token's own address excepted. */
  lemma AggregatePerAddress(token: string, w: Window, feed: seq<Response<Event>>, a: string)
    requires Ends(feed) && Aggregate(token, w, feed).Ok?
    ensures Seen(w, feed).Ok?
    ensures Get(Aggregate(token, w, feed).value, a) == Flow(token, Counted(w, Seen(w, feed).value), a)
  {
    var evs := Counted(w, Seen(w, feed).value);
    TallyFlow(token, evs, map[], a);
    AddZero(Flow(token, evs, a));
  }

  /** Every key of the result is a lower-cased address other than the token's. */
  predicate KeysNormal(token: string, m: Ledger)
  {
    forall k :: k in m ==> IsLower(k) && k != token
  }

  lemma ApplyKeysNormal(token: string, e: Event, m: Ledger)
    requires KeysNormal(token, m)
    ensures KeysNormal(token, Apply(token, e, m))
  {
    var r := Apply(token, e, m);
    var from, to := Lower(e.from), Lower(e.to);
    assert IsLower(from) && IsLower(to) by {
      LowerIsLower(e.from);
      LowerIsLower(e.to);
    }
    forall k | k in r
      ensures IsLower(k) && k != token
    {
      assert k in m || (k == from && from != token) || (k == to && to != token);
    }
  }

  lemma {:induction false} TallyKeysNormal(token: string, evs: seq<Event>, m: Ledger)
    requires KeysNormal(token, m)
    ensures KeysNormal(token, Tally(token, evs, m))
    decreases |evs|
  {
    if evs != [] {
      ApplyKeysNormal(token, evs[0], m);
      TallyKeysNormal(token, evs[1..], Apply(token, evs[0], m));
    }
  }

  lemma AggregateKeysNormal(token: string, w: Window, feed: seq<Response<Event>>)
    requires Ends(feed) && Aggregate(token, w, feed).Ok?
    ensures KeysNormal(token, Aggregate(token, w, feed).value)
  {
    TallyKeysNormal(token, Counted(w, Seen(w, feed).value), map[]);
  }

  /* ---------- the window ---------- */

  lemma {:induction false} NothingCountsInInvertedWindow(w: Window, evs: seq<Event>)
    requires w.fromMs > w.toMs
    ensures Counted(w, evs) == []
    decreases |evs|
  {
    if evs != [] {
      NothingCountsInInvertedWindow(w, evs[1..]);
    }
  }

  /** A custom window whose start lies after its end is accepted, and then every ERC-20 record
      either stops the scan or is newer than the end: the result has no entries. */
  lemma InvertedWindowCountsNothing(token: string, now: int, f: int, t: int, feed: seq<Response<Event>>)
    requires t != 0 && f != 0 && t < f && Ends(feed)
    ensures WindowMs(CustomRange, now, Some(f), Some(t)) == Ok(Window(f, t))
    ensures Aggregate(token, Window(f, t), feed).Ok? ==> Aggregate(token, Window(f, t), feed).value == map[]
  {
    if Seen(Window(f, t), feed).Ok? {
      NothingCountsInInvertedWindow(Window(f, t), Seen(Window(f, t), feed).value);
    }
  }
}
