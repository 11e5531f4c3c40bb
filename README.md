# Whitelist raffle: a Dafny model

The repository is a giveaway utility for three ERC-20 tokens on one chain (AR, AISTR, ALCH).

- `fetch.ts` pages through the holders of each token from a balance API. It upserts every non-zero balance into a `holders` table, keyed by address, with one decimal-string column per token.
- `index.ts` reads the table back in pages of 1000 rows. It parses each column into an exact integer and sums the three into a total per address. It then draws 100 winners, with each draw's probability proportional to total holdings, and prints their holdings in whole tokens.

The model is in five modules, one per file:

- `Types` (`types.dfy`): the record shapes of `types.ts`, plus `Option` and the `Token` enumeration.
- `Decimal` (`decimal.dfy`): decimal strings of non-negative integers. This covers what BigInt's `toString()` writes and what `BigInt(s)` reads from a digit string. It proves both round trips.
- `Raffle` (`raffle.dfy`) models `index.ts`:
  - `ConvertToBigint` and the row aggregation;
  - the paging loop `LoadHolders`, over the table given as its sequence of rows in scan order;
  - the `reduce` total `TotalTokens`;
  - the weighted draw `WeightedRandomSelection`;
  - `FormatBigint`.
- `Fetch` (`fetch.dfy`) models `fetch.ts`. The table is a class `HoldersTable` whose `rows: map<string, Row>` field `UpsertHolders` updates in place. The filter-and-map step over one page of API items is the function `ToHolders`.
- `Pipeline` (`pipeline.dfy`) links the two scripts. Any table the ingestion builds loads without a parse error. After the three ingestion passes into an empty table, each aggregated amount is the last non-zero amount ingested for that address and token. A table left over from an earlier run keeps its old columns for addresses a new pass does not write; `clean.ts` exists to empty it.

The draw works on exact integers. Holder `i` owns the cumulative interval `[Prefix(i), Prefix(i) + total_i)`. Draw `r` picks the unique holder whose interval contains `r`. So a holder of weight zero (an empty interval) never wins, and a draw at or above the total weight picks nobody.

The code samples **with replacement**: the list of holders is never changed, so one holder can win several draws (`ReplacementAllowed`). Holders with a zero total stay in the list; they simply never win. There is no exclusion list. A malformed column makes `BigInt` throw a `SyntaxError`, which ends the script.

The source takes each draw `r` from `Math.floor(Math.random() * Number(totalTokens))`. Here `r` is a parameter: `draws[i]` is the value used in iteration `i`. `Math.random()` is below 1 by at least 2^-53, so the rounded product stays below `totalTokens` whenever `Number(totalTokens)` is finite, even when that conversion rounds up. A draw at or above the total therefore arises only when `totalTokens` is 0: every draw is then 0 and no holder wins. `WinnersOutOfRange` and `WinnersCount` cover both cases. If every draw is below the total, there is exactly one winner per draw. A draw at or above the total adds no winner.

## Model

| member | source | states |
|---|---|---|
| `Decimal.ToDecimal` | fetch.ts:62 | `toString()` of a non-negative amount is a non-empty digit string without a leading zero; it has one digit exactly for amounts below 10 |
| `Decimal.DigitsValueOfToDecimal` | fetch.ts:62 | the digit string `toString()` writes denotes the amount it was written from |
| `Decimal.ToDecimalOfDigitsValue` | fetch.ts:64 | a canonical digit string is exactly what `toString()` writes for the number it denotes |
| `Decimal.DigitsValue` | index.ts:32 | the number a decimal-digit string denotes, which is what `BigInt` reads from it; it is 0 exactly when every digit is `0` |
| `Raffle.ConvertToBigint` | index.ts:30-33 | '' parses to 0; a string parses exactly when it is all decimal digits, to the number those digits denote; anything else is the thrown `SyntaxError` (None) |
| `Raffle.ConvertToBigintRoundTrip` | index.ts:32 | parsing what `toString()` wrote for any natural `n` gives back `n` |
| `Raffle.ConvertToBigintCanonical` | index.ts:30-33 | a canonical string parses to `n` if and only if it is `n.toString()` |
| `Raffle.AggregateRow` | index.ts:43-54 | a row aggregates exactly when its three columns parse; the holder keeps the row's address, holds the three parsed amounts and a total equal to their sum |
| `Raffle.Page` | index.ts:36-38 | `LIMIT`/`OFFSET` over the rows: `limit` rows from the offset, fewer at the end, none past it; element `i` of the page is row `offset + i` |
| `Raffle.PagesFrom` | index.ts:35-58 | the pages read from page `p` on, up to the first empty one, concatenate to the rows from offset `p * 1000` on (none past the end); so from page 0 they cover the whole table |
| `Raffle.LoadHolders` | index.ts:35-58 | the loop succeeds exactly when every row parses, and then yields one aggregated holder per row, in row order |
| `Raffle.TotalOf` | index.ts:61 | the sum of `total` over the holders, folded from the left as `reduce` does (a definition) |
| `Raffle.TotalOfZero` | index.ts:61-67 | the total weight is 0 exactly when every holder's total is 0, the one case in which draws can pick nobody |
| `Raffle.TotalTokens` | index.ts:61 | the computed total equals the sum of `total` over all holders and bounds every single holder's total |
| `Raffle.PrefixStep` | index.ts:71 | the interval of holder `i + 1` starts where holder `i`'s ends |
| `Raffle.PrefixMonotone` | index.ts:71 | interval starts never decrease along the list |
| `Raffle.ScanFrom` | index.ts:66-72 | the inner scan from index `k` with `rest` left of the draw; an index it returns lies in range at or after `k` and has positive weight |
| `Raffle.Pick` | index.ts:66-72 | the scan of a whole draw; an index it returns is in range and has positive weight |
| `Raffle.ScanFromSound` | index.ts:66-72 | a scan started at `k` with `rest` left either picks an index whose interval contains the draw, or runs off the end only when the draw is at least the total weight |
| `Raffle.PickSpec` | index.ts:66-72 | a draw picks a holder if and only if it is below the total weight, and the picked holder's cumulative interval contains the draw |
| `Raffle.IntervalUnique` | index.ts:66-72 | no draw lies in two holders' intervals |
| `Raffle.PickIsIntervalOwner` | index.ts:66-72 | the scan picks index `i` if and only if `Prefix(i) <= r < Prefix(i) + total_i`; hence a zero-weight holder is never picked |
| `Raffle.Winners` | index.ts:64-73 | the winners pushed for a sequence of draws, in draw order, one per draw that hits; at most one per draw |
| `Raffle.WeightedRandomSelection` | index.ts:60-76 | the winners are, draw by draw, the holders the scan picks; there are at most `numWinners`, each is a holder of positive weight; the holders are left unchanged |
| `Raffle.WinnersCount` | index.ts:64-73 | at most one winner per draw, and exactly one per draw when every draw is below the total weight |
| `Raffle.WinnersOutOfRange` | index.ts:64-73 | draws at or above the total weight add no winner |
| `Raffle.WinnersAreWeightedHolders` | index.ts:66-70 | every winner is an element of the holder list and has a positive total |
| `Raffle.WinnersAppend` | index.ts:64-73 | one more in-range draw appends the owner of its interval at the end of the list; an out-of-range draw appends nothing |
| `Raffle.ReplacementAllowed` | index.ts:64-75 | nothing is removed between draws: a single holder of positive weight wins two draws of 0 |
| `Raffle.FormatBigint` | index.ts:80-82 | the displayed string is canonical and denotes the amount divided by 10^18, rounded down |
| `Fetch.SetColumn` | fetch.ts:62 | only the named token's column changes, to the value written |
| `Fetch.WrittenAmount` | fetch.ts:55-59 | a holder is written exactly when its amount for the token is present and non-zero, and then with that amount |
| `Fetch.UpsertOne` | fetch.ts:55-65 | a missing or zero amount leaves the table unchanged; otherwise the address is a key afterwards, its token column holds the amount's decimal string, its other columns are kept (existing row) or '' (new row), and every other row is untouched |
| `Fetch.LastAmount` | fetch.ts:53-66 | the last amount written for an address; when present it is positive |
| `Fetch.LastAmountIsLast` | fetch.ts:53-66 | None exactly when no holder record for the address has a present, non-zero amount; otherwise the amount belongs to such a record, after which no record for the address writes a non-zero amount |
| `Fetch.UpsertAll` | fetch.ts:53-66 | the table after upserting the holders in order; it keeps every existing key (which keys it adds is stated by `Fetch.UpsertAllAt`) |
| `Fetch.UpsertAllAppend` | fetch.ts:53-66 | upserting a concatenation of holder lists equals upserting the first list, then the second |
| `Fetch.UpsertAllAt` | fetch.ts:52-67 | after the loop an address has a row if and only if it had one or some holder wrote it; the token column is the last non-zero amount written (later overwrites earlier), or unchanged when none was; other columns are as before, or '' for a new row |
| `Fetch.UpsertAllWellFormed` | fetch.ts:60-65 | upserting keeps every column either '' or a canonical decimal string |
| `Fetch.HoldersTable.constructor` | fetch.ts:6-15 | `CREATE TABLE IF NOT EXISTS`: an existing table keeps its rows, a new one is empty |
| `Fetch.HoldersTable.UpsertHolders` | fetch.ts:52-67 | the table after the loop is the in-order upsert of every holder into the table before it |
| `Fetch.HoldersTable.IngestPage` | fetch.ts:88-96 | a page without items changes nothing; a page with items upserts exactly the mapped complete items |
| `Fetch.MakeHolder` | fetch.ts:91-94 | the mapped record carries the item's address and its balance under the page's token, and no other token's amount |
| `Fetch.ToHolders` | fetch.ts:90-94 | no more records than items; every item with both an address and a balance is mapped; every record comes from such an item |
| `Fetch.ToHoldersAppend` | fetch.ts:90-94 | the filter and map preserve item order: mapping a concatenation concatenates the mapped parts |
| `Fetch.IngestTwoPages` | fetch.ts:88-96 | ingesting two pages in turn gives the same table as one upsert pass over the mapped items of both pages, in order |
| `Types.Amount` | fetch.ts:55 | the amount a holder record carries for the given token |
| `Pipeline.WellFormedTableLoads` | index.ts:43-54 | a scan of a table whose columns are all '' or written amounts parses row by row, so the paging loop succeeds |
| `Pipeline.Ingested` | fetch.ts:137-139 | the table after the AR, AISTR and ALCH passes into an empty table; every column of it is '' or a canonical decimal string |
| `Pipeline.IngestedColumn` | fetch.ts:137-139 | after the AR, AISTR and ALCH passes into an empty table, each column of an address's row is the last non-zero amount that token's pass wrote for it, or '' |
| `Pipeline.IngestedAggregates` | index.ts:44-54 | each holder aggregated from the table ingested into an empty table has, per token, the last non-zero amount ingested for its address (0 if none), and their sum as total |

## Left out

- SQLite access is not modelled; the table is an in-memory map (`Fetch`) or the sequence of rows a `SELECT *` returns (`Raffle`). This covers opening the database, the queries themselves, the table-existence and row-count checks that end the raffle script with `process.exit(1)` (index.ts:6-23), and `clean.ts`'s `DELETE`. The order in which SQLite returns rows is left open: `Pipeline.IsScanOf` accepts any order.
- The balance API client, the API-key check and the `do … while (hasMore)` page loop of `getTokenHolders` (fetch.ts:18-22, 69-99) are network plumbing. Only the handling of one page's items is modelled (`IngestPage`). The `holders` array `getTokenHolders` returns is always empty and unused.
- `Math.random()` and the float product `Math.random() * Number(totalTokens)` (index.ts:65) are a random source and floating point. Each draw is supplied as a natural number instead.
- `Raffle.ConvertToBigint`: `BigInt` also accepts surrounding whitespace, a sign and `0x`/`0o`/`0b` prefixes. The model parses decimal-digit strings only and treats every other string as the `SyntaxError` case. The table only ever holds '' or decimal strings written by `toString()` (`Fetch.UpsertAllWellFormed`).
- Amounts are non-negative (`nat`). A negative BigInt balance and its `-` sign in `toString()` are not modelled.
- `tokenName` is one of the three lower-case names the script passes (`Token`). Any other string selects the ALCH amount (fetch.ts:55). Unless it is a column name in some letter case, the SQL also names a missing column. That case is not modelled.
- The `RangeError` that `BigInt` throws once `Number(totalTokens)` is `Infinity` (index.ts:65) is not modelled. That happens for totals from 2^1024 − 2^970 on.
- `numWinners` is a natural number (the script passes 100). A fractional or negative JavaScript number is not modelled.
- The `console.log` and `console.table` output (index.ts:83-92) is left out, apart from `formatBigint` itself.
- The commented-out float-based selection in fetch.ts:101-135 is dead code and is left out.
