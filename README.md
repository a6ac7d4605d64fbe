# Bank reconciliation core, modelled in Dafny

This project models the core of a bank-statement reconciliation tool. The tool
pairs each bank statement record (from an OFX extract) with one or more report
records from the company's own ledger. It then lists what is left unmatched on
either side and sums both sides per calendar day.

What is modelled:

- **`Conciliador`** (reconciliation.py) is a Dafny `class` with the same fields:
  - `trans_ofx` and `trans_rel` are constants;
  - `resultado` and `nao_conciliadas_rel` are `seq` fields that the methods reassign;
  - a ghost removal trail records every report record the matchers take.

  Each method is proved equal to a pure specification function of the old state, in
  module `Matching`. The properties are proved about those functions:
  - the three matchers and their priority order;
  - the combination search with all of its guards: 15 candidates, sizes 2 to 4, the
    `math.comb` estimate and the 1000-combination budget;
  - the reverse (many statement records : one report record) search;
  - how rows are recorded;
  - the residue passes;
  - that report records are conserved over the whole matching loop.

  Python's `list.remove`, `itertools.combinations`, `math.comb` and the stable
  `list.sort` are modelled as functions in modules `Lists` and `Combinations`.
- **`agrupar_por_dia`** is a method that changes nothing. It has the source's two
  accumulation loops and its aggregation loop over a `map` from the day key
  (`dd/mm/yyyy`) to the two totals. Its result is `None` where the source raises on
  an undated line.
- **The loader's row normalisation** (data_loader.py) is modelled in module `Loader`:
  - `parse_date`, including its numeric fallback;
  - the amount cleanup (`1.234,56` becomes `1234.56`);
  - the natureza (debit/credit) sign rule;
  - the separate receita/despesa layout;
  - the account filter;
  - the row loop of `converter_dataframe`, with its skipped rows.

  The library calls the loader makes are function parameters:
  - the `strptime` format loop;
  - `float()` with its regex fallback;
  - `str()` of numbers and timestamps.

Amounts are exact `real`s. The matchers' tolerance is `1e-4`, and the daily balance
tolerance is `0.01`, the constant the code uses. Records are compared by value, as
Python compares dicts.

Where the code differs from the tool's documented intent, the code is modelled, and
lemmas exhibit the difference:

- Records are identified by value, not by reference. Of two equal statement records,
  the matched one hides the other from the residue pass
  (`MatchingProperties.EqualRecordHidesResidue`).
- The matching worklist is fixed before the loop (reconciliation.py:68). A statement
  record already consumed as a partner of a reverse match is matched a second time
  when its own turn comes (`MatchingProperties.StatementRecordMatchedTwice`).
- The sign filters are strict. A target of zero takes the negative branch.
- Day keys sort as strings, day first, so the day list is not in chronological order
  (`DailySummary.KeyOrderIsNotChronological`).
- A report record referenced by several rows is added to its day's report total once
  per row (`DailySummary.RepeatedRecordCountsPerRow`).
- The daily balance tolerance is `0.01`, not `1e-4`.

## Model

| member | source | states |
|---|---|---|
| Lists.FirstIndexOf | reconciliation.py:136 | the position `remove` deletes holds the value, and no earlier position does |
| Lists.RemoveFirst | reconciliation.py:136 | `remove` deletes exactly one occurrence of the value |
| Lists.RemoveEach | reconciliation.py:186-187 | removing the chosen records one by one deletes exactly them, once each |
| Lists.RemoveFirstAt | reconciliation.py:136 | when `s[k]` is the first element equal to itself, `remove(s[k])` drops exactly position `k` |
| Lists.WithoutSingle | reconciliation.py:240 | filtering out a value that occurs once shortens the list by exactly one |
| Lists.WithoutAbsent | reconciliation.py:240 | filtering out a value that does not occur changes nothing |
| Combinations.CombosCount | reconciliation.py:171-175 | `itertools.combinations(s, n)` yields exactly `math.comb(len(s), n)` tuples, so the estimate is the true count |
| Combinations.CombosShape | reconciliation.py:175 | every combination has `n` elements, picked from `s` in order (a subsequence) |
| Combinations.CombosMembers | reconciliation.py:175 | every element of a combination is an element of the list |
| Combinations.SubsequenceMultiset | reconciliation.py:175 | a combination takes no record more often than the list holds it |
| Combinations.BinomialTwo | reconciliation.py:171 | `comb(k, 2) = k(k-1)/2` |
| Combinations.BinomialThree | reconciliation.py:171 | `comb(k, 3) = k(k-1)(k-2)/6` |
| Combinations.BinomialFour | reconciliation.py:171 | `comb(k, 4) = k(k-1)(k-2)(k-3)/24` |
| Combinations.EstimateAtMost1365 | reconciliation.py:166-173 | with at most 15 candidates and sizes 2 to 4 the estimate is at most 1365, below the 10000 skip threshold |
| Matching.FirstExact | reconciliation.py:133-137 | the position found is the first pool record on the statement's day within `1e-4`; None when no record fits |
| Matching.TakeExactEffect | reconciliation.py:128-138 | the exact matcher fails exactly when no pool record fits, and then changes nothing; on success it returns the first fitting record and removes exactly that position; an undated statement record never matches |
| Matching.SameDay | reconciliation.py:147 | the candidates are pool records dated on the statement's day, drawn from the pool |
| Matching.SameDayComplete | reconciliation.py:147 | every pool record dated on the statement's day is a candidate, as many times as the pool holds it |
| Matching.InsertSorted | reconciliation.py:153 | inserting into a list sorted by distance to the target keeps it sorted |
| Matching.SortByDistance | reconciliation.py:153 | the sort is a permutation of the candidates |
| Matching.SortSorted | reconciliation.py:153 | the sorted candidates are in ascending order of `abs(amount - valor)` |
| Matching.InsertAtDistance | reconciliation.py:153 | inserting a record puts it before every record at its own distance and leaves the order at other distances alone |
| Matching.SortStable | reconciliation.py:153 | the sort is stable: for every distance, the records at that distance keep their input order, which fixes both the records the cap keeps and the candidate order the combinations follow |
| Matching.SignFilter | reconciliation.py:159-163 | the sign filter keeps only records strictly on the target's side, drawn from the list |
| Matching.SignFilterComplete | reconciliation.py:159-163 | every record strictly on the target's side is kept, as many times as the list holds it |
| Matching.ComboBlocksStep | reconciliation.py:168-175 | a size whose `comb` estimate exceeds 10000 contributes no combination; any other size contributes all of its combinations, in order |
| Matching.ComboBlocksShape | reconciliation.py:166-175 | every enumerated combination has a size from 2 to `min(4, len)` and is drawn from the candidates |
| Matching.ScanSumsSound | reconciliation.py:175-188 | the combination returned is one of those scanned, of one sign, and sums to the target within `1e-4` |
| Matching.ComboFindSound | reconciliation.py:147-190 | a combination match has 2 to 4 report records, all on the statement's day, all strictly on the target's side, summing to the target within `1e-4`, all taken from the pool |
| Matching.FirstSumFit | reconciliation.py:233-237 | the report record found is the first of the day, of the sum's strict sign, within `1e-4` of the sum; None when there is none |
| Matching.Partners | reconciliation.py:204-211 | the partners are statement records of the day that appear in no row, differ from the anchor and strictly share its sign |
| Matching.PartnersComplete | reconciliation.py:204-211 | every statement record of the day that appears in no row, differs from the anchor and strictly shares its sign is a partner, as many times as the statement holds it |
| MatchingProperties.TakeCombinationEffect | reconciliation.py:176-190 | a failed combination search leaves the state unchanged; a successful one removes each chosen record |
| MatchingProperties.CappedSize | reconciliation.py:150-154 | the cap keeps `min(15, n)` candidates, all from the day's list, and changes nothing below the cap |
| MatchingProperties.CappedNearest | reconciliation.py:151-154 | above the cap, every kept candidate is at least as near to the target as every dropped one |
| MatchingProperties.ComboCandidatesFacts | reconciliation.py:147-163 | at most 15 candidates, all on the statement's day, on the target's side, taken from the pool; with at most 15 records on the day, every one of them on the target's side is a candidate |
| MatchingProperties.EstimateNeverSkips | reconciliation.py:168-173 | with these bounds no size is ever skipped: every combination of every size is enumerated |
| MatchingProperties.ScanBudget | reconciliation.py:156-189 | when every combination has one sign, the scan finds the first combination with the target sum if it lies among the first `1000 - checked`, and returns None otherwise |
| MatchingProperties.SameSideOneSign | reconciliation.py:179-182 | a combination of same-side candidates always passes the mixed-sign check |
| MatchingProperties.ComboSearchOrder | reconciliation.py:147-190 | the combination search returns the first combination with the target sum in size-then-`itertools` order if it is among the first 1000, and None otherwise |
| MatchingProperties.ScanGroupsComplete | reconciliation.py:219-256 | the reverse scan comes back empty only when no group holds the anchor, has one sign and has a fitting report record |
| MatchingProperties.ScanGroupsSound | reconciliation.py:219-254 | the reverse scan returns the first group holding the anchor, of one sign, with a fitting report record, and the first such record |
| MatchingProperties.SizeBlocksShape | reconciliation.py:217-220 | every group scanned has a size from 2 to `min(5, len(todos_itens))` and is drawn from `todos_itens` |
| MatchingProperties.ReverseFindSound | reconciliation.py:199-256 | a reverse match needs a dated anchor; the group holds the anchor once and has 2 to 5 members of one sign, the other members are unmatched same-day records of the anchor's strict sign, and the report record is the first fitting one |
| MatchingProperties.ReverseFindComplete | reconciliation.py:199-256 | for a dated anchor, no reverse match means that no group of 2 to min(5, 1 + partners) of the anchor and its partners, holding the anchor and of one sign, has a pool record of the day, of the sum's strict sign, within `1e-4` of the sum |
| MatchingProperties.PartnerRowsShape | reconciliation.py:243-248 | one "Conciliado (Soma)" row per partner, in order, each paired with the report record found |
| MatchingProperties.TakeReverseEffect | reconciliation.py:238-254 | on failure nothing changes; on success the report record found leaves the pool, and one row per non-anchor member of the group is appended |
| MatchingProperties.BestMatchPriority | reconciliation.py:104-126 | the matchers run exact, then combination, then reverse, and the first success wins; the status and the shape of the match show which one succeeded; when all three fail nothing changes |
| MatchingProperties.RegisterRowsShape | reconciliation.py:257-271 | one row per matched report record, each paired with the statement record; the first carries the match's status, the rest "Conciliado (Soma)" |
| MatchingProperties.TakeExactAccounts | reconciliation.py:133-137 | after an exact match every report record is still in the pool or on the removal trail |
| MatchingProperties.TakeCombinationAccounts | reconciliation.py:184-188 | after a combination match every report record is still in the pool or on the removal trail |
| MatchingProperties.TakeReverseAccounts | reconciliation.py:250-254 | after a reverse match every report record is still in the pool or on the removal trail |
| MatchingProperties.MoveConserves | reconciliation.py:186-187 | removing the chosen records from the pool one by one moves them, and only them, to the trail |
| MatchingProperties.BestMatchConserves | reconciliation.py:104-126 | the matchers together neither lose nor invent report records, and rows are only appended |
| MatchingProperties.StepConserves | reconciliation.py:98-100 | one pass of the matching loop conserves report records and only appends rows |
| MatchingProperties.RunConserves | reconciliation.py:71-100 | the whole matching loop conserves report records and only appends rows |
| MatchingProperties.ReportRecordsConserved | reconciliation.py:68-100 | after the loop, every input report record is still unmatched or was removed by exactly one matcher call |
| MatchingProperties.BestMatchTrail | reconciliation.py:104-126 | a successful matcher call only appends rows and removes exactly the report records it returns; a failed one changes nothing |
| MatchingProperties.StepRecorded | reconciliation.py:98-100 | after one pass of the loop, every report record removed so far is paired on a "Conciliado" or "Conciliado (Soma)" row |
| MatchingProperties.RegisteredRecorded | reconciliation.py:257-271 | recording a match gives each report record it removed a row with a reconciled status |
| MatchingProperties.RunRecorded | reconciliation.py:71-100 | the whole loop keeps every removed report record on a reconciled row |
| MatchingProperties.RemovedRecordsMatched | reconciliation.py:68-100 | after the matching loop, every report record a matcher removed is paired with a statement record on a reconciled row |
| MatchingProperties.OutputHolds | reconciliation.py:273-292 | a record on a row of the matching loop, or left unmatched, is on a row of the final result |
| MatchingProperties.ReportRecordsInOutput | reconciliation.py:38-42 | every input report record ends up on the report side of some row of the final result |
| MatchingProperties.StatementResiduesFacts | reconciliation.py:277-284 | the first residue loop keeps the existing rows and mentions every statement record afterwards; it appends only "Não conciliado" rows without a report side, one per statement record no earlier row mentions |
| MatchingProperties.ReportResiduesShape | reconciliation.py:286-292 | one "Não conciliado" row without a statement side per pool record, in pool order |
| MatchingProperties.FeeAReverseMatch | reconciliation.py:192-256 | two same-day fees with no exact or combination match are paired, by a reverse match, with the one report record that equals their sum |
| MatchingProperties.FeeBExactMatch | reconciliation.py:128-138 | the partner fee later finds its own exact match |
| MatchingProperties.StatementRecordMatchedTwice | reconciliation.py:68-100 | a statement record consumed as a reverse-match partner is matched again when its own turn comes, because the worklist is fixed before the loop |
| MatchingProperties.EqualRecordHidesResidue | reconciliation.py:277-284 | of two equal statement records, the matched one hides the other, which gets no row |
| Digits.DecimalRoundTrip | reconciliation.py:397 | the printed year is all digits and reads back as the year |
| Digits.TwoDigitsRoundTrip | reconciliation.py:397 | `%d` and `%m` print two digits that read back as the field |
| DailySummary.DayKeyInjective | reconciliation.py:397 | equal `dd/mm/yyyy` keys come from equal dates, so grouping by key is grouping by date |
| DailySummary.StrLessIrreflexive | reconciliation.py:428 | Python string order is irreflexive |
| DailySummary.StrLessTransitive | reconciliation.py:428 | Python string order is transitive |
| DailySummary.StrLessTotal | reconciliation.py:428 | Python string order is total on distinct strings |
| DailySummary.InsertKeyAscending | reconciliation.py:428 | inserting a new key into an ascending list keeps it ascending |
| DailySummary.SortKeysAscending | reconciliation.py:428 | `sorted` over distinct keys yields the same keys in strictly ascending order |
| DailySummary.KeyOrderIsNotChronological | reconciliation.py:397-428 | the key of 1 January 2024 sorts before the key of 2 January 2023, so the day list is not chronological |
| DailySummary.StatementTotalAppend | reconciliation.py:392-405 | a statement line adds its amount to its own day only |
| DailySummary.StatementKeysAppend | reconciliation.py:392-403 | a statement line adds its day's key, unless it is a balance line |
| DailySummary.StatementUndatedAppend | reconciliation.py:397 | the summary fails exactly when a counted statement line has no date |
| DailySummary.StatementTotalAbsent | reconciliation.py:398-405 | a day with no counted statement line has a statement total of zero |
| DailySummary.ReportTotalAppend | reconciliation.py:408-424 | a counted row adds its report amount to its record's day only |
| DailySummary.ReportKeysAppend | reconciliation.py:413-421 | a counted, dated row adds its record's key |
| DailySummary.ReportUndatedAppend | reconciliation.py:413-414 | the summary fails exactly when a counted row's report record has no date |
| DailySummary.ReportTotalAbsent | reconciliation.py:413-424 | a day with no counted row has a report total of zero |
| DailySummary.AddTo | reconciliation.py:398-405 | adding to day `k` makes `k` a key and leaves every other day's entry unchanged |
| DailySummary.StatementTableFacts | reconciliation.py:389-405 | after the statement loop the table holds exactly the statement days, each with its day's total |
| DailySummary.ReportTableFacts | reconciliation.py:389-424 | after both loops the table holds exactly the days of the statement and of the counted rows, each with both of its totals |
| DailySummary.DayRowOf | reconciliation.py:428-452 | a day is "Conciliado" exactly when its two totals differ by less than `0.01` |
| DailySummary.SameAmountTotal | reconciliation.py:408-424 | rows that all add the same amount to a day total that many copies of it |
| DailySummary.RepeatedRecordCountsPerRow | reconciliation.py:408-424 | a report record shared by several counted rows is added once per row |
| Reconciliation.Conciliador.constructor | reconciliation.py:8-16 | both lists start as copies of the report records, with no rows yet |
| Reconciliation.Conciliador.FindExact | reconciliation.py:128-138 | the exact search and `remove` leave the state and the result that `TakeExact` specifies, and keep the accounting invariant |
| Reconciliation.Conciliador.FindCombination | reconciliation.py:140-190 | the combination search and its removals leave the state and the result that `TakeCombination` specifies |
| Reconciliation.Conciliador.FindReverse | reconciliation.py:192-256 | the reverse search, the partner rows and the `remove` leave the state and the result that `TakeReverse` specifies |
| Reconciliation.Conciliador.FindBestMatch | reconciliation.py:104-126 | the priority chain leaves the state and the result that `BestMatch` specifies |
| Reconciliation.Conciliador.RegisterMatch | reconciliation.py:257-271 | only `resultado` changes: the registered rows are appended |
| Reconciliation.Conciliador.ProcessMatches | reconciliation.py:68-100 | the loop over the worklist fixed at the start leaves the state that `Run` specifies |
| Reconciliation.Conciliador.ProcessUnmatched | reconciliation.py:273-292 | the statement residues and then the report residues are appended, in order |
| Reconciliation.Conciliador.Execute | reconciliation.py:38-42 | the rows are the matching loop's rows followed by both residue passes, and the report records left unmatched are the loop's final pool |
| Reconciliation.Conciliador.GroupByDay | reconciliation.py:382-454 | fails exactly on an undated counted line; otherwise one row per day key of the statement or of the counted rows, each with both totals and its status, in strictly ascending key order |
| Reconciliation.TallyStatement | reconciliation.py:392-405 | the statement loop builds the statement table, and fails exactly on an undated counted line |
| Reconciliation.TallyReport | reconciliation.py:408-424 | the row loop adds to the table, and fails exactly on an undated counted row |
| Reconciliation.TallyLine | reconciliation.py:393-405 | one pass: a balance line is skipped; otherwise the line's day entry is created if new and grows by its amount |
| Reconciliation.TallyRow | reconciliation.py:409-424 | one pass: a counted row's report amount is added to its record's day entry |
| Reconciliation.ListKeys | reconciliation.py:428 | the table's keys, once each |
| Reconciliation.BuildDayRows | reconciliation.py:427-452 | one aggregated row per key, in the given order |
| Reconciliation.SearchCombination | reconciliation.py:147-190 | the imperative search returns what `ComboFind` specifies |
| Reconciliation.ScanSizes | reconciliation.py:166-190 | the loop over sizes 2 to `min(4, len)` returns the first hit of the counted scan |
| Reconciliation.ScanSize | reconciliation.py:168-175 | one size: skipped when the estimate exceeds 10000, otherwise scanned; the budget carries over |
| Reconciliation.ScanCombos | reconciliation.py:175-189 | the inner loop stops at the first hit or when the budget runs out, and otherwise passes the count on |
| Reconciliation.RemoveAll | reconciliation.py:186-187 | `remove` of each chosen record in turn |
| Reconciliation.AppendPartners | reconciliation.py:243-248 | one partner row appended per other group member |
| Reconciliation.SearchReverse | reconciliation.py:199-220 | the imperative reverse search returns what `ReverseFind` specifies |
| Reconciliation.ScanReverseSizes | reconciliation.py:217-220 | the loop over group sizes 2 to `min(5, len)` |
| Reconciliation.ScanReverseCombos | reconciliation.py:220-254 | the first group of one size that is accepted, or it defers to the later sizes |
| Reconciliation.FindSumFit | reconciliation.py:233-237 | the innermost loop finds the first fitting report record |
| Loader.ParseDate | data_loader.py:168-176 | a missing cell or `''` gives None; a timestamp comes back unchanged |
| Loader.TimeOfDayIgnored | data_loader.py:176-179 | only the text before the first space counts, so a time of day after the date changes nothing |
| Loader.DigitRunsShape | data_loader.py:198 | every run `re.findall(r'\d+')` returns is a non-empty string of digits |
| Loader.DigitRunsSplit | data_loader.py:198 | a non-digit separates the runs before it from the runs after it |
| Loader.ThreeFields | data_loader.py:198-200 | three digit runs joined by two non-digits are read as exactly those three numbers |
| Loader.PivotYear | data_loader.py:203-204 | a year below 100 becomes a year in 1950-2049 with the same last two digits |
| Loader.NumericFallback | data_loader.py:196-213 | the fallback yields only a calendar date at midnight with day 1-31, month 1-12 and year 1900-2100, and nothing with fewer than three digit runs |
| Loader.FallbackReadsFullYear | data_loader.py:198-208 | a date printed as day, month and four-digit year with any separators is read back as that date |
| Loader.FallbackReadsShortYear | data_loader.py:198-208 | a two-digit year is read as 20yy below 50 and 19yy otherwise |
| Loader.FallbackRejectsNonCalendar | data_loader.py:206-210 | fields in range that name no calendar day (31/02) give None, because `datetime` raises and the error is caught |
| Loader.CleanAmountShape | data_loader.py:286-290 | the cleaned amount holds only digits, `.`, `+` and `-`, has one `.` per input `,` and keeps the input's digits in order |
| Loader.SignRule | data_loader.py:306-312 | a debit word makes the amount non-positive and a credit word non-negative, keeping its magnitude; any other word keeps the amount |
| Loader.LowerCaseDebito | data_loader.py:280-308 | upper-casing reads "débito" as the debit word "DÉBITO" |
| Loader.SplitNetParts | data_loader.py:314-315 | receita and despesa are non-negative, at most one is non-zero, and receita minus despesa is the amount |
| Loader.ColumnAmount | data_loader.py:319-341 | a receita or despesa cell gives `abs` of its value: 0 when the column is not there or the cell is missing, `''` or not convertible, `abs(x)` for a number, and `abs` of the converted text otherwise |
| Loader.SeparateAmounts | data_loader.py:316-369 | in the separate layout receita and despesa are the converted amounts of their own cells, both non-negative, and the amount is their difference |
| Loader.ConvertRowSkips | data_loader.py:251-304 | a row is skipped exactly when the date column is missing, the date does not parse, or in natureza mode the amount or natureza column is missing or the amount does not convert |
| Loader.ConvertRowKept | data_loader.py:258-383 | a kept row is dated by its date cell, its receita and despesa are non-negative, and its amount is their difference |
| Loader.NatureRowAmount | data_loader.py:279-315 | in natureza mode a kept row keeps the converted magnitude, its sign follows the word, and at most one of receita and despesa is non-zero |
| Loader.SeparateRowAmounts | data_loader.py:316-382 | with separate columns a row is kept exactly when its date parses; the record's receita and despesa are those of its own cells and its amount is their difference |
| Loader.FilteredRows | data_loader.py:246-248 | with the account filter on, a row is kept exactly when its account cell equals the filter; otherwise every row is kept |
| Loader.ConvertedInOrder | data_loader.py:251-383 | the k-th record comes from the k-th row that is not skipped; those positions increase, and every other row is skipped |
| Loader.ConvertedWellFormed | data_loader.py:251-383 | every loaded record is dated, with non-negative receita and despesa whose difference is its amount |
| Loader.ConvertDataFrame | data_loader.py:215-383 | the filter and the row loop append exactly the records of the rows that are not skipped, in order |

## Left out

- The user interface: Streamlit messages, the progress bar and the random status
  messages (reconciliation.py:29-61, 72-96). Also `_gerar_dataframe`,
  `_mostrar_resumo_dias`, styling.py and main.py. They only display results.
- The statistics `executar` prints (reconciliation.py:50-58). They are display only.
- The code after the `return` in `agrupar_por_dia` (reconciliation.py:455 on). It is
  unreachable. The method's `rows` parameter is unused, so it is not modelled.
- Floating-point arithmetic. Amounts are exact reals, so rounding residue in sums and
  the `:.2f` formatting are not modelled.
- Time zones and the difference between `date` and `datetime`. A timestamp is a
  calendar date plus a second of the day, and only the date is compared.
- Reading the files (Excel/CSV/OFX readers in data_loader.py). These are I/O.
- The column checks at data_loader.py:225-244. They only print.
- The debug output and the `problematic_dates` list. They are printing only.
- The `KeyError` the loader raises when the mapping lacks the `valor`, `natureza`,
  `receita`, `despesa` or `conta` key. A missing key is treated like an unmapped
  column.
- Loader.ParseDate: the twelve `strptime` formats are a parameter (`Library.strptime`),
  so what each format accepts is not modelled. Only the numeric fallback is modelled
  in full.
- Loader.TextAmount: `float()` and its regex fallback are a parameter
  (`Library.toFloat`).
- Loader.Str: `str()` of a number or a timestamp is a parameter.
- Python's `\d` also matches non-ASCII decimal digits. The digit runs here are ASCII
  only.
- `str.upper()` is modelled for ASCII, the Latin-1 letters, dotless i and long s. That
  covers every letter of the natureza words.
- Cell values of other Python types (booleans, `Decimal`) are not modelled. The cell
  types are missing, text, number and timestamp.
- Python's `list.remove` raises when the value is absent. Every call site is proved to
  remove a present value.
