/** `windowMs()` of app.js: the time window, in milliseconds since the epoch, whose
    transfers are counted. */
module Window {
  import opened Wrappers

  /** Milliseconds in a day, the `864e5` of app.js. */
  const DayMs: int := 86400000

  /** The form value of the range selector that asks for explicit dates. */
  const CustomRange: int := 0

  const PickDates: string := "pick custom dates"

  /** Both bounds are inclusive: `fromMs <= ts <= toMs` counts. */
  datatype Window = Window(fromMs: int, toMs: int)

  /** `getTime()` of a custom date passes the `!f` test: it parsed (not `NaN`) and is not 0. */
  predicate Usable(t: Option<int>)
  {
    t.Some? && t.value != 0
  }

  /** `range` is the selected number of days, or `CustomRange` for the two date inputs;
      `now` is `Date.now()`. */
  function WindowMs(range: int, now: int, customFrom: Option<int>, customTo: Option<int>): (r: Result<Window>)
    ensures range != CustomRange ==> r.Ok? && r.value.toMs == now
    ensures range != CustomRange ==> r.value.toMs - r.value.fromMs == range * DayMs
    ensures range == CustomRange ==> (r.Ok? <==> Usable(customFrom) && Usable(customTo))
    ensures range == CustomRange && r.Ok? ==>
              r.value.fromMs == customFrom.value && r.value.toMs == customTo.value
    ensures r.Err? ==> r.error == PickDates
  {
    if range == CustomRange then
      if !Usable(customFrom) || !Usable(customTo) then Err(PickDates)
      else Ok(Window(customFrom.value, customTo.value))
    else
      Ok(Window(now - range * DayMs, now))
  }
}
