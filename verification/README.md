# dune-sim-dashboard: the holder/transfer aggregation of `app.js`, in Dafny

`app.js` builds a table of a token's holders. For each holder it shows the current balance and
how many transfers of the token went in and out of the address inside a time window, and for
how much. It does this in five steps:

1. `windowMs` turns the range selector into a window `fromMs..toMs`.
2. `fetchHolders` pages through the holders endpoint.
3. `aggregateTransfers` makes one pass over the token's activity feed. The feed is newest first,
   and the pass stops at the first ERC-20 record older than the window.
4. `run` joins each holder with its counters by lower-cased address and sorts by balance.
5. `fmt` renders raw amounts with thousands separators and at most two fractional digits.

This project models those five pieces as pure Dafny functions over abstract inputs. Each response
of the upstream API is a `Response`: a failed request carries its body text, and a page carries
its items and its `next_offset`. Time, the form fields and the decimals lookup are parameters.

Modules, one per piece of `app.js`:

- `Paging`: pagination common to both loops. A page with a non-empty `next_offset` leads to
  another request.
- `Holders`: `fetchHolders`.
- `Window`: `windowMs`.
- `Ascii`: `toLowerCase` on addresses.
- `Activity`: `aggregateTransfers`, in two forms.
  - As loops: `ScanPage` mirrors the `for` over a page and `AggregateTransfers` mirrors the
    `while (url)` loop.
  - As a reference definition, `Aggregate`: the records the scan reaches (`Seen`), the ones that
    count (`Counted`), and their effect on the map (`Tally`).
- `ActivityProofs`: what the scan promises. Passed-over records do not matter, the early exit is
  final, each address gets the sum of its own transfers, and all keys are lower-cased.
- `Conservation`: summed over the whole map, transfers in equal transfers out, in number and in
  amount, when no counted record has the token's own address as sender or receiver.
- `Table`: the join and the stable sort.
- `App`: `run` as a whole.
- `Digits`, `Format` and `FormatProofs`: `fmt`, including the regular-expression grouping.

Behaviour of `app.js` that the model keeps as written:

- **Window bounds.** The window is inclusive at both ends: a record at `fromMs` or at `toMs`
  counts.
- **Custom dates.** A custom window is never checked for `from <= to`.
  `ActivityProofs.InvertedWindowCountsNothing` shows what an inverted window does: it is accepted,
  and it counts nothing.
- **Failures.** A failed response from either feed aborts the whole run with its body text.
  Nothing partial is kept.
- **Scan shape.** There is one token-wide sequential scan over the activity feed.
- **Record classification.** A record is classified by its `asset_type` and by its `from`/`to`
  addresses.
- **Ties.** Rows with equal balances keep the order the holders endpoint returned them in. The
  sort is stable.

## Model

| member | source | states |
|---|---|---|
| Window.WindowMs | app.js:64-73 | A relative range ends at `now` and spans exactly `range` days of 86,400,000 ms. A custom range succeeds iff both dates parsed and neither is 0 (the `!f` test), and then uses them unchanged. Otherwise it fails with "pick custom dates". |
| Paging.StopIndex | app.js:78-81 | The loop stops at the first response without a non-empty `next_offset`. Every earlier response carried one. |
| Paging.LaterResponsesUnread | app.js:78-81 | Responses behind the one that stops the loop are never requested. Appending any responses leaves the stopping position and everything before it unchanged. |
| Holders.FetchHolders | app.js:75-84 | The loop returns the holders of every page up to the stopping one, concatenated in order. If the stopping response failed, it throws that response's body text. |
| Holders.CollectedIgnoresLaterPages | app.js:78-82 | The holders collected do not depend on responses after the one without an offset. |
| Ascii.Lower | app.js:97-98 | Lower-casing keeps the length, maps each ASCII capital to its small letter and keeps every other character. No capital remains. |
| Ascii.LowerIsLower | app.js:97-98 | Lower-casing is idempotent, so a key built from a lower-cased address is itself lower case. |
| Activity.CreditOut | app.js:101-104 | The sender's entry is created with zeros if missing, then its `outC` rises by 1 and its `outA` by the value. Every other entry is unchanged. |
| Activity.CreditIn | app.js:105-108 | The receiver's entry is created with zeros if missing, then its `inC` rises by 1 and its `inA` by the value. Every other entry is unchanged. |
| Activity.Apply | app.js:97-108 | One counted record moves every address by exactly its delta: out-counters for the lower-cased sender and in-counters for the lower-cased receiver, never for the token itself. Both apply when sender and receiver coincide. Only those two keys can be added. |
| Activity.FirstStop | app.js:93-95 | The scan of a page ends at its first ERC-20 record with `ts < fromMs`. No earlier record of the page stops it. |
| Activity.Counted | app.js:93-96 | A record counts iff it is ERC-20 and `fromMs <= ts <= toMs`, both bounds inclusive. |
| Activity.ScanPage | app.js:92-109 | The `for` loop over a page reports a stop iff the page has a stopping record. Its map is the counted records before that record applied in order. |
| Activity.AggregateTransfers | app.js:86-113 | The paging loop equals the reference `Aggregate`. Records are counted page by page until a record older than the window, a page without an offset, or a failed response; a failure throws its body text. |
| ActivityProofs.PassedOverIgnored | app.js:93-96 | Removing a non-ERC-20 record, or an ERC-20 record newer than `toMs` and not older than `fromMs`, from any page leaves the result unchanged. The scan neither counts such a record nor stops at it. |
| ActivityProofs.StopIsFinal | app.js:95 | After the first ERC-20 record older than `fromMs`, nothing matters: neither later records on that page nor any later page. The feed can be cut right after that record. |
| ActivityProofs.TallyFlow | app.js:97-108 | Counting a run of records moves each address by the sum of that address's deltas over the run. |
| ActivityProofs.AggregatePerAddress | app.js:86-113 | In a successful result, every address's four counters are the sums over the counted records of its outgoing and incoming transfers. The token's own address gets nothing. |
| ActivityProofs.AggregateKeysNormal | app.js:97-106 | Every key of the result is lower case and differs from the token's address. |
| ActivityProofs.InvertedWindowCountsNothing | app.js:70 | A custom window with non-zero bounds that starts after it ends is accepted, whatever the sign of the bounds. The map it produces is then empty. |
| Conservation.ApplyTotal | app.js:101-108 | One record raises the total `inC`/`inA` over the map by 1 and its value, unless the receiver is the token. It raises the total `outC`/`outA` the same way, unless the sender is the token. |
| Conservation.AggregateTotals | app.js:86-113 | Each counter's total over the whole result is what the counted records move. When no counted record involves the token, total in equals total out: in number, the number of records, and in amount, their total value. |
| Table.Join | app.js:32-41 | A holder's row keeps the address as given and its balance. The counters are the map entry under the lower-cased address, or zeros when there is none. |
| Table.Merge | app.js:32-41 | There is exactly one row per holder, in the holders' order. |
| Table.Insert | app.js:42 | Inserting keeps every row (the multiset grows by the new row) and keeps a sorted list sorted. |
| Table.SortByBalance | app.js:42 | The sorted rows are a permutation of the input. Balances never increase along the result: the comparator `b.balance - a.balance` is never positive for a pair in order. |
| Table.SortIsStable | app.js:42 | For every balance, the rows with that balance come out in their input order. `Array.prototype.sort` is stable. |
| Table.ReportRows | app.js:32-42 | The report has as many rows as there are holders. Every holder's row is in it, and every row is some holder's. |
| App.Run | app.js:17-42 | `run` computes `Dashboard`. A window error comes first ("pick custom dates"), then a holders-feed failure, then an activity-feed failure. |
| App.DashboardRows | app.js:17-42 | A successful run has one row per holder, ordered by balance. Each holder's row shows its balance and what the counted transfers moved in and out of its lower-cased address, and every row is such a row of some holder. |
| App.ReportFlows | app.js:33-42 | The rows of the report and the holders match one to one: every holder has a row with its owner, balance and `Flow` under its lower-cased address, and every row is such a row of some holder. |
| Digits.Dec | app.js:122 | `BigInt.prototype.toString()` gives canonical decimal digits (no leading zero unless "0") that denote the number. |
| Digits.CanonicalIsDec | app.js:122 | `toString()` and `Value` are inverse on canonical digit strings. |
| Format.SliceIndex | app.js:123-124 | A `slice` argument counts back from the end when negative and is clamped to the string: it resolves to `len` beyond the end and to 0 before the start. |
| Format.Slice | app.js:123-124 | `slice(start, end)` holds the characters from the resolved start up to the resolved end, in order. It is empty when the resolved end does not lie after the resolved start. |
| Format.PadStart | app.js:122 | `padStart(width, "0")` leaves a long enough string alone and otherwise prepends zeros up to `width`. |
| Format.StripTrailingZeros | app.js:124 | `replace(/0+$/, "")` only drops zeros from the end, and drops all of them: putting the zeros back gives the input, and the result does not end in `'0'`. |
| Format.Fmt | app.js:121-126 | The output shows a decimal point iff the fraction is non-empty. Before the point (or in the whole output) stands the integer part, after it the fraction. `FormatProofs.FmtIntegerPart`, `FormatProofs.FmtFractionPart` and `FormatProofs.FmtDecZero` state what the two parts hold. |
| FormatProofs.GroupLayout | app.js:123 | Grouping only inserts commas: removing them gives the digits back. A comma sits exactly at every fourth position from the right, and the result never starts with a comma. |
| FormatProofs.GroupIsRegex | app.js:123 | The right-to-left grouping equals the replacement `/\B(?=(\d{3})+(?!\d))/g` read left to right. |
| FormatProofs.FmtIntegerPart | app.js:121-123 | For `dec >= 1` the integer part is `bi / 10^dec` in decimal, grouped by three. It is never empty. |
| FormatProofs.FmtFractionPart | app.js:124 | For `dec >= 1` the fraction is empty when `dec` is 1 or 2. Otherwise it is the first two fractional digits, truncated rather than rounded, without trailing zeros. |
| FormatProofs.FmtDecZero | app.js:122-124 | For `dec == 0` the integer part is empty, and the "fraction" is the first two digits of `bi` without trailing zeros. |
| FormatProofs.DecZeroDropsIntegerPart | app.js:123 | `fmt(12345n, 0)` is ".12", where the corrected formatter gives "12,345". |
| FormatProofs.SmallDecDropsFraction | app.js:124 | `fmt(125n, 2)` is "1", where the corrected formatter gives "1.25". |
| FormatProofs.FmtFixedIntegerPart | app.js:121-123 | For every `dec` the corrected integer part is `bi / 10^dec` in decimal, grouped by three. |
| FormatProofs.FmtFixedFractionPart | app.js:124 | For every `dec` the corrected fraction is the first `min(2, dec)` fractional digits, truncated, without trailing zeros. |

## Left out

- `proxy.js`: host rewriting, the API key header and CORS are network plumbing.
- `fetch`, `r.ok`, `r.text()` and `r.json()`, and the URL and offset construction (app.js:76, 81, 88, 110). Each response is an input `Response`. JSON errors and missing fields are not modelled.
- The chain selection (app.js:4, 20): `chainId` only enters the request URLs, so each feed stands for the responses of the chosen chain.
- `lookupDecimals` (app.js:115-119): a network call. It falls back to 18 on a response that is not `ok` or has no decimals. A request that rejects or a body that is not JSON would abort `run` after both feeds succeeded. That failure is not modelled: `dec` is an input of `fmt`, and `App.Dashboard` does not depend on it.
- The DOM (app.js:6-10, 14-15, 44-54, 62, 65, 68-69): reading the form, the status text, and rendering the rows. That includes the `owner.slice(0,10)` truncation, which is display only.
- `contract().trim()` (app.js:62): the contract address is taken as already trimmed.
- Date parsing (app.js:68-69, 94): timestamps and custom dates are integers, and an unparsable date is `None`. A `block_time` that parses to `NaN` fails both comparisons in app.js and would be counted. Records here always have an integer time.
- `+range` and `864e5` as floating point: `range` is an integer number of days, and `CustomRange` stands for the value "0".
- `Number(...)` in the sort comparator: only its sign matters, and the model keeps the exact difference.
- `BigInt(...)` on malformed or negative strings: values and balances are natural numbers. The counters `inC`/`outC`, JS numbers in app.js, are unbounded here.
- `toLowerCase` beyond ASCII: addresses are hexadecimal.
- `fmt` on negative amounts: balances and amounts are natural numbers.
- `fmt` is not applied to the rows: the table model stops at the row values.
- Paging.Ends: both feeds are required to be finite lists in which some response stops the pagination. An upstream that never stops returning offsets is not modelled.
- Activity.AggregateTransfers: requires `Ends(feed)`, although the loop can also end at a stopping record before any response without an offset.
- App.Run: requires both feeds to end, even when `windowMs` throws before either is read.

## Findings

| source | as written | input that shows it | evidently intended | confidence | as-written member | corrected member |
|---|---|---|---|---|---|---|
| app.js:123 | `s.slice(0,-dec)` with `dec = 0` is `slice(0, 0)`, so the integer part is always empty, and `slice(-0, 2)` shows the leading digits as a "fraction" | `fmt(12345n, 0)` gives ".12" | "12,345", the whole amount grouped | high, not executed | Format.Fmt, shown by FormatProofs.DecZeroDropsIntegerPart and FormatProofs.FmtDecZero | Format.FmtFixed, with FormatProofs.FmtFixedIntegerPart |
| app.js:124 | `s.slice(-dec,-dec+2)` with `dec` of 1 or 2 ends at or before its start, so the fraction is always empty | `fmt(125n, 2)` gives "1" | "1.25", the first `min(2, dec)` fractional digits | high, not executed | Format.Fmt, shown by FormatProofs.SmallDecDropsFraction and FormatProofs.FmtFractionPart | Format.FmtFixed, with FormatProofs.FmtFixedFractionPart |
