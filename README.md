# Mint CSV breakdown: the ledger engine

This project models the ledger engine of a small budget viewer for Mint
transaction exports, and proves properties of the model. The engine does five
things:

- It cleans descriptions. Every card-number prefix in the prefix list is
  deleted from every description, one prefix at a time, in list order. The
  columns "Original Description", "Account Name", "Labels" and "Notes" are
  then dropped.
- It flags likely transfers. A row starts out ignored when its stripped
  description contains "payment" in any letter case, or "Web Authorized", or
  "Transfer".
- It builds the category breakdown. Rows are grouped by category and the
  amounts are summed, ignored rows included. The groups are sorted by
  ascending sum.
- It answers queries: the total spent (counted debits), the row colours of
  the transaction table, the highlight for a selected category, and the
  date range.
- It toggles one row's ignore flag when the user selects that row.

Modules, one per component:

- `Text` covers substring search, Python's `str.replace(p, "")`, lower-casing
  and Python's string order.
- `Records` holds the export row, the transaction, and the dropping of the
  unused columns.
- `Normalizer` covers prefix stripping.
- `Classifier` holds the transfer heuristic.
- `CategoryTotals` covers grouping, summing and sorting.
- `Queries` holds the read-only views.
- `Dates` holds the calendar-order date range (see Findings).
- `Engine` holds the `Ledger` class.

The `Ledger` keeps the transactions in an `array`, the ignore flags in a
parallel `array<bool>`, and the breakdown it computes once at load time.
Loading a file builds a new `Ledger`. `ToggleSelected` is the only operation
that changes a ledger.

Amounts are whole cents, so rounding the debit total to two decimals changes
nothing. Dates are the strings of the `Date` column: the export is read
without date parsing, so the date range compares strings.

Three behaviours of the code that the model keeps:

- There is no credit total, because `sumValidCredits` is an empty stub.
- A bad toggle selection changes nothing and reports `false`; the code
  swallows the exception.
- The date range is taken in string order; the Findings section gives the
  calendar-order version.

## Model

| member | source | states |
|---|---|---|
| `Text.ContainsIff` | mint-csv-breakdown.py:83-86 | the substring test holds exactly when the pattern occurs at some position of the text |
| `Text.Contains` | mint-csv-breakdown.py:83-86 | the substring test that `str.contains` performs on the description; `Text.ContainsIff` gives its meaning |
| `Text.RemoveAll` | mint-csv-breakdown.py:71 | deleting every occurrence of a substring never makes a description longer |
| `Text.RemoveAllFirstOccurrence` | mint-csv-breakdown.py:71 | the scan keeps the text before the first occurrence of the substring, deletes that occurrence and carries on after it; with `Text.RemoveAllAbsent` this means every non-overlapping occurrence is deleted, left to right |
| `Text.RemoveAllAbsent` | mint-csv-breakdown.py:71 | a description that does not contain the substring comes back unchanged |
| `Text.RemoveAllShrinks` | mint-csv-breakdown.py:71 | a description that contains a non-empty substring gets strictly shorter |
| `Text.RemoveAllUnchangedIff` | mint-csv-breakdown.py:71 | deleting a non-empty substring leaves a description unchanged if and only if the substring does not occur in it |
| `Text.Lower` | mint-csv-breakdown.py:83-84 | lower-casing keeps the length, lower-cases each letter and leaves no capital |
| `Text.ContainsLower` | mint-csv-breakdown.py:84 | an occurrence of a word is still an occurrence after both strings are lower-cased, so the lower-cased test ignores letter case |
| `Text.LexLeTotal` | mint-csv-breakdown.py:58 | any two date strings are comparable in Python's string order |
| `Text.LexLeTransitive` | mint-csv-breakdown.py:58 | Python's string order is transitive |
| `Text.LexLeAntisymmetric` | mint-csv-breakdown.py:58 | two strings ordered both ways are equal |
| `Normalizer.StripPrefixes` | mint-csv-breakdown.py:70-71 | the loop over the card prefixes (the list at :8, held in `Normalizer.CARD_PREFIXES`) deletes each prefix in turn; stripping never makes a description longer |
| `Normalizer.StripPrefixesAbsent` | mint-csv-breakdown.py:70-71 | a description that contains none of the prefixes is unchanged |
| `Normalizer.StripPrefixesSnoc` | mint-csv-breakdown.py:70-71 | each pass of the prefix loop deletes the next prefix from the result of the earlier passes, in list order |
| `Normalizer.Normalize` | mint-csv-breakdown.py:70-77 | row order is kept, and row i becomes the export's row i with its description stripped and the four unused columns dropped |
| `Normalizer.NormalizeKeepsFields` | mint-csv-breakdown.py:74-77 | date, amount, type and category are carried over unchanged, and the description never gets longer |
| `Normalizer.StripDescriptions` | mint-csv-breakdown.py:70-71 | the in-place pass over the whole column, prefix by prefix, leaves every row with its description stripped of all prefixes and every other column untouched |
| `Records.DropColumns` | mint-csv-breakdown.py:74-77 | drops "Original Description", "Account Name", "Labels" and "Notes", keeping date, description, amount, type and category |
| `Classifier.PaymentClauseDead` | mint-csv-breakdown.py:83 | the "Payment" test on lower-cased text can never be true |
| `Classifier.IsTransfer` | mint-csv-breakdown.py:80-88 | the initial flag holds if and only if the description contains "payment" in any letter case, or "Web Authorized" or "Transfer" as capitalised |
| `Classifier.PaymentAnyCase` | mint-csv-breakdown.py:84 | "payment" in any capitalisation, such as "Payment" or "PAYMENT", flags the row |
| `Classifier.TransferCaseSensitive` | mint-csv-breakdown.py:86 | "Transfer" is matched case-sensitively: "TRANSFER" alone is not flagged and "Transfer" is |
| `CategoryTotals.GroupSummarises` | mint-csv-breakdown.py:91 | grouping gives distinct categories, exactly those of the rows; the entry for each category holds the sum of that category's amounts; the entries sum to the total amount |
| `CategoryTotals.AggregateOnePerCategory` | mint-csv-breakdown.py:91-92 | the breakdown has exactly one entry per distinct category of the rows |
| `CategoryTotals.AggregateEntrySums` | mint-csv-breakdown.py:91-92 | each entry's sum is the sum of the amounts of all rows in its category, ignored rows included |
| `CategoryTotals.AggregateConservation` | mint-csv-breakdown.py:91-92 | the breakdown's sums add up to the total of all amounts |
| `CategoryTotals.AggregateSorted` | mint-csv-breakdown.py:92 | the breakdown is in ascending order of sums and is a permutation of the grouped entries |
| `CategoryTotals.SortByTotalPermutes` | mint-csv-breakdown.py:92 | sorting by sum returns a sorted permutation of its input |
| `CategoryTotals.GroupByCategory` | mint-csv-breakdown.py:91 | groups the rows by category and sums each group; there are no more groups than rows, and none exactly when there are no rows |
| `CategoryTotals.SortByTotal` | mint-csv-breakdown.py:92 | orders the entries by ascending sum and keeps their number |
| `CategoryTotals.Aggregate` | mint-csv-breakdown.py:91-92 | the breakdown (grouped, summed, sorted) has no more lines than there are rows, and none exactly when there are no rows |
| `Queries.SumValidDebits` | mint-csv-breakdown.py:22-23 | the total spent; for amounts without sign, as Mint exports them, it lies between 0 and the sum of all amounts |
| `Queries.CountedIndices` | mint-csv-breakdown.py:23 | lists, in strictly ascending order, positions of rows that are debits and not ignored |
| `Queries.CountedIndicesComplete` | mint-csv-breakdown.py:23 | every debit row that is not ignored has its position listed, so the listing is exactly the rows the filter keeps |
| `Queries.CountedDebits` | mint-csv-breakdown.py:23 | the rows the filter keeps: exactly the debit rows that are not ignored, each once, in ledger order |
| `Queries.SumValidDebitsIsCountedSum` | mint-csv-breakdown.py:22-23 | the total spent is the sum of the amounts of the debit rows that are not ignored |
| `Queries.NoCountedDebitsZero` | mint-csv-breakdown.py:22-23 | the total is 0 when every debit row is ignored, and so for an empty ledger |
| `Queries.NonDebitIrrelevant` | mint-csv-breakdown.py:23 | a credit row never contributes: changing it or its flag leaves the total unchanged |
| `Queries.Flip` | mint-csv-breakdown.py:182-185 | the toggle inverts the flag at the selected row and keeps every other flag |
| `Queries.FlipDelta` | mint-csv-breakdown.py:182-188 | toggling a row moves the total by exactly its amount: added back if it was ignored, taken out if it was counted, and 0 for a credit |
| `Queries.ToggleDelta` | mint-csv-breakdown.py:182-188 | how much toggling a row moves the total: its amount back for an ignored debit, minus its amount for a counted debit, 0 for a credit; `Queries.FlipDelta` proves it |
| `Queries.DoubleFlipRestores` | mint-csv-breakdown.py:182-185 | toggling the same row twice restores its flag and the total |
| `Queries.ColorsForIgnored` | mint-csv-breakdown.py:30-31 | one pair per row with indices 0..n-1 in order; the colour is "salmon" if and only if the row is ignored and "grey" otherwise |
| `Queries.MapColor` | mint-csv-breakdown.py:39-46 | "MediumOrchid" exactly for an ignored row of the selected category, "MediumSlateBlue" exactly for a counted one, and "grey" exactly for other categories |
| `Queries.ColorsForCategory` | mint-csv-breakdown.py:34-36 | one pair per row with indices in order; a row is highlighted if and only if it is in the selected category; it is "MediumOrchid" if and only if it is in the category and ignored, and "MediumSlateBlue" if and only if it is in the category and counted |
| `Queries.CategoryHighlightMatchesIgnored` | mint-csv-breakdown.py:30-46 | inside the selected category, the highlight separates ignored rows from counted ones exactly as the ignore colouring does |
| `Queries.MinDate` | mint-csv-breakdown.py:58 | the minimum is the date of some row |
| `Queries.MaxDate` | mint-csv-breakdown.py:58 | the maximum is the date of some row |
| `Queries.DateRange` | mint-csv-breakdown.py:57-58 | the range of a ledger is absent exactly when it has no rows, and both of its ends are dates of its rows |
| `Queries.DateRangeBounds` | mint-csv-breakdown.py:57-58 | a ledger with rows has a range whose ends are dates of its rows, first no later than last, and every row's date between them in string order; an empty ledger has no range |
| `Dates.ParseDay` | mint-csv-breakdown.py:58 | corrected version of :58: a date string read as a day gives a day that exists in the calendar (no "2/31/2023") |
| `Dates.ParseFormatDay` | mint-csv-breakdown.py:58 | corrected version of :58: a day written as Mint writes it ("9/30/2023") reads back as that same day, for every day of the calendar |
| `Dates.FebruaryEnds` | mint-csv-breakdown.py:58 | corrected version of :58: "2/29/2024" is read as a day and "2/29/2023" is refused |
| `Dates.FirstBadDate` | mint-csv-breakdown.py:58 | corrected version of :58: reports the first row whose date cannot be read, and reports none if and only if every date can be read |
| `Dates.ChronoDateRange` | mint-csv-breakdown.py:57-58 | corrected version of :58: an empty ledger has no range; a ledger with an unreadable date names such a row; otherwise the range holds exactly, its ends are dates of its rows, and every row's day lies between them in calendar order |
| `Dates.StringRangeOfAcrossMonthEnd` | mint-csv-breakdown.py:58 | in string order, rows dated 9/30/2023 and 10/01/2023 have the range 10/01/2023 to 9/30/2023 |
| `Dates.ChronoRangeOfAcrossMonthEnd` | mint-csv-breakdown.py:58 | corrected version of :58: in calendar order the same two rows have the range 9/30/2023 to 10/01/2023 |
| `Dates.StringRangeMisorders` | mint-csv-breakdown.py:58 | for those two rows the string range starts on the later day, while the calendar range runs from 9/30/2023 to 10/01/2023 |
| `Engine.Ledger.Load` | mint-csv-breakdown.py:64-92 | a loaded ledger holds the normalised rows in file order, each row's initial flag is the classifier's verdict on its stripped description, and the breakdown is the sorted category sums |
| `Engine.Ledger.ToggleSelected` | mint-csv-breakdown.py:177-191 | a valid first selected index has its flag inverted, and every other flag and every transaction is unchanged; the total moves by that row's delta; an empty or out-of-range selection changes nothing; the breakdown is fixed at load and stays the same |

## Left out

- The window, its tables and buttons, and the event loop's dispatching are left out. So are the console printing (`prntTab`) and `getColWidths`. They are presentation only.
- Reading the CSV file and listing the CSV directory are left out. A ledger is built from rows that are already parsed.
- Floating-point amounts are left out. Amounts are whole cents, so the two-decimal rounding of the total is the identity.
- `sumValidCredits` is left out. It is an empty stub in the code and promises no behaviour.
- The module-level current ledger and the "Read File" reload branch are left out. A reload is modelled as constructing a new `Ledger`.
- The table widget that the constructor builds and then discards is left out.
- The category-selection event is left out. It looks up the selected line of the breakdown by index. Only the highlight it computes (`Queries.ColorsForCategory`) is modelled.
- `Engine.Ledger.Load` always succeeds, and every cell in the model holds a value. In the code, a blank description (or "NA", "N/A", "null") is read as NaN, a float. The lambda at mint-csv-breakdown.py:71 then calls `x.replace` on it and raises AttributeError. So the load fails: at start-up (:108) this ends the program, and the reload at :210 runs outside any `try`. The model has no such error path.
- `CategoryTotals.Aggregate` gives every row's category an entry. In the code, a row with a blank category is dropped by the grouping at :91, so its amount is missing from the breakdown. `CategoryTotals.AggregateConservation` holds only for ledgers where every category is present.
- The extra "index" column that `reset_index` adds to the breakdown is left out. A breakdown entry keeps only the category and its sum.
- `CategoryTotals.Aggregate` orders equal sums by insertion. The code's sort is not stable, so its order among equal sums is unspecified. The lemmas state only what holds for any order.
- `Text.Lower` lower-cases the ASCII letters only. Python's `str.lower` also lower-cases other alphabets; the keywords tested are ASCII.
- `Text.Contains` is plain substring search. pandas' `str.contains` matches a regular expression, which is the same thing here because the four keywords have no metacharacters.
- `Dates.ParseDay` also reads forms that Mint does not write, such as a zero-padded month or a one-digit day ("09/3/2023"). The round trip `Dates.ParseFormatDay` is stated for Mint's own form only.
- `Queries.DateRange` returns `None` for an empty ledger. The code would show "nan-nan", and the model does not produce that text. It also does not model the "Dates: " display string.

## Findings

| source | as written | input that shows it | evidently intended | confidence | as-written member | corrected member |
|---|---|---|---|---|---|---|
| mint-csv-breakdown.py:58 | the date range is the minimum and maximum of the `Date` column compared as strings | two rows dated "9/30/2023" and "10/01/2023" get the range "10/01/2023" to "9/30/2023" | the earliest and the latest calendar day of the file | medium, not executed; it assumes Mint's month/day/year dates without leading zeros on the month | `Dates.StringRangeMisorders` | `Dates.ChronoDateRange` |

`Queries.DateRange` models the code as written. `Dates.ChronoDateRange`
parses each date as month/day/year, refusing days that do not exist, and
takes the earliest and the latest day. It reports an empty ledger, or the
first row whose date cannot be read. `Dates.ParseFormatDay` shows that the
parser reads back every day written in Mint's form.
