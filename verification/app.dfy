/** `run` of app.js: the token address, the window, the holders, the transfer counters and the
    ordered rows, with the first failure ending the run with its message. */
module App {
  import opened Wrappers
  import opened Ascii
  import opened Paging
  import opened Window
  import opened Activity
  import opened Holders
  import opened Table
  import ActivityProofs

  /** What `run` shows: the rows of the table, or the message of the first step that threw.
      `contract` is the address as typed, `range`, `now` and the custom bounds feed `windowMs`,
      and the two feeds are the upstream responses in request order. */
  function Dashboard(contract: string, range: int, now: int, customFrom: Option<int>, customTo: Option<int>,
                     holderFeed: seq<Response<Holder>>, activityFeed: seq<Response<Event>>): Result<seq<Row>>
    requires Ends(holderFeed) && Ends(activityFeed)
  {
    var token := Lower(contract);
    match WindowMs(range, now, customFrom, customTo)
    case Err(msg) => Err(msg)
    case Ok(w) =>
      match Collected(holderFeed)
      case Err(msg) => Err(msg)
      case Ok(holders) =>
        match Aggregate(token, w, activityFeed)
        case Err(msg) => Err(msg)
        case Ok(stats) => Ok(Report(stats, holders))
  }

  /** The `try` block of `run`, one awaited step after another. */
  method Run(contract: string, range: int, now: int, customFrom: Option<int>, customTo: Option<int>,
             holderFeed: seq<Response<Holder>>, activityFeed: seq<Response<Event>>) returns (r: Result<seq<Row>>)
    requires Ends(holderFeed) && Ends(activityFeed)
    ensures r == Dashboard(contract, range, now, customFrom, customTo, holderFeed, activityFeed)
    ensures WindowMs(range, now, customFrom, customTo).Err? ==> r == Err(PickDates)
    ensures WindowMs(range, now, customFrom, customTo).Ok? && Collected(holderFeed).Err? ==>
              r == Err(Collected(holderFeed).error)
  {
    var token := Lower(contract);
    var win := WindowMs(range, now, customFrom, customTo);
    if win.Err? {
      return Err(win.error);
    }
    var holders := FetchHolders(holderFeed);
    if holders.Err? {
      return Err(holders.error);
    }
    var stats := AggregateTransfers(token, win.value, activityFeed);
    if stats.Err? {
      return Err(stats.error);
    }
    r := Ok(Report(stats.value, holders.value));
  }

  /** A successful run shows one row per holder, ordered by balance, and each holder's row
      carries what the counted transfers moved in and out of its lower-cased address. */
  lemma DashboardRows(contract: string, range: int, now: int, customFrom: Option<int>, customTo: Option<int>,
                      holderFeed: seq<Response<Holder>>, activityFeed: seq<Response<Event>>)
    requires Ends(holderFeed) && Ends(activityFeed)
    requires Dashboard(contract, range, now, customFrom, customTo, holderFeed, activityFeed).Ok?
    ensures WindowMs(range, now, customFrom, customTo).Ok? && Collected(holderFeed).Ok?
    ensures var w := WindowMs(range, now, customFrom, customTo).value;
            Seen(w, activityFeed).Ok?
    ensures var rows := Dashboard(contract, range, now, customFrom, customTo, holderFeed, activityFeed).value;
            var holders := Collected(holderFeed).value;
            var w := WindowMs(range, now, customFrom, customTo).value;
            var counted := Counted(w, Seen(w, activityFeed).value);
            && |rows| == |holders| && Sorted(rows)
            && (forall i :: 0 <= i < |holders| ==>
                  exists row :: row in rows && row.owner == holders[i].wallet && row.balance == holders[i].balance
                    && Counters(row) == ActivityProofs.Flow(Lower(contract), counted, Lower(holders[i].wallet)))
            && forall row :: row in rows ==>
                 exists i :: 0 <= i < |holders| && row.owner == holders[i].wallet && row.balance == holders[i].balance
                   && Counters(row) == ActivityProofs.Flow(Lower(contract), counted, Lower(holders[i].wallet))
  {
    var token := Lower(contract);
    var w := WindowMs(range, now, customFrom, customTo).value;
    ReportFlows(token, w, activityFeed, Collected(holderFeed).value);
  }

  /** The rows of the report and the holders match one to one in owner, balance and `Flow`. */
  lemma ReportFlows(token: string, w: Window, activityFeed: seq<Response<Event>>, holders: seq<Holder>)
    requires Ends(activityFeed) && Aggregate(token, w, activityFeed).Ok?
    ensures Seen(w, activityFeed).Ok?
    ensures var rows := Report(Aggregate(token, w, activityFeed).value, holders);
            var counted := Counted(w, Seen(w, activityFeed).value);
            && |rows| == |holders|
            && (forall i :: 0 <= i < |holders| ==>
                  exists row :: row in rows && row.owner == holders[i].wallet && row.balance == holders[i].balance
                    && Counters(row) == ActivityProofs.Flow(token, counted, Lower(holders[i].wallet)))
            && forall row :: row in rows ==>
                 exists i :: 0 <= i < |holders| && row.owner == holders[i].wallet && row.balance == holders[i].balance
                   && Counters(row) == ActivityProofs.Flow(token, counted, Lower(holders[i].wallet))
  {
    var stats := Aggregate(token, w, activityFeed).value;
    var rows := Report(stats, holders);
    ActivityProofs.AggregatePerAddress(token, w, activityFeed, "");
    var counted := Counted(w, Seen(w, activityFeed).value);
    ReportRows(stats, holders);
    forall i | 0 <= i < |holders|
      ensures exists row :: row in rows && row.owner == holders[i].wallet && row.balance == holders[i].balance
                && Counters(row) == ActivityProofs.Flow(token, counted, Lower(holders[i].wallet))
    {
      var row := Join(stats, holders[i]);
      assert Counters(row) == Get(stats, Lower(holders[i].wallet));
      ActivityProofs.AggregatePerAddress(token, w, activityFeed, Lower(holders[i].wallet));
      assert row in rows;
    }
    forall row | row in rows
      ensures exists i :: 0 <= i < |holders| && row.owner == holders[i].wallet && row.balance == holders[i].balance
                && Counters(row) == ActivityProofs.Flow(token, counted, Lower(holders[i].wallet))
    {
      var i :| 0 <= i < |holders| && row == Join(stats, holders[i]);
      ActivityProofs.AggregatePerAddress(token, w, activityFeed, Lower(holders[i].wallet));
    }
  }
}
