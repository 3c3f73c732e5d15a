# Chan-theory bar pipeline and strategies, modelled in Dafny

This project models the self-contained logic of a Chan-theory (缠论) trading
toolkit. The toolkit itself wraps an external analysis engine. The model covers:

- **CSV bar source** (`csv_api.dfy`, module `CsvApi`):
  - timestamps are parsed by string length at fixed slice offsets;
  - a K-line type name maps to the data file `{code}_{freq}.csv`;
  - a comma-split row becomes a field dictionary;
  - the row stream of `CSV_API.get_kl_data` skips the header, checks the column count, parses the time and keeps rows inside the inclusive `[begin, end]` range.
- **Resampler** (`resampler.dfy`, module `Resampler`):
  - bars are aggregated into left-closed, left-labelled time buckets: open first, high max, low min, close last, volume and turnover summed, code first;
  - empty buckets are dropped;
  - `validate_data` compares two bar tables on their common timestamps, with an absolute tolerance for prices and one unit for volume.
- **Professional strategy bookkeeping** (`my_strategy.dfy`, module `MyStrategy`):
  - configuration choice;
  - the trade statistics, including the drawdown of cumulative profit.
- **5-minute zhongshu strategy** (`zhongshu_strategy.dfy`, module `ZhongshuStrategy`):
  - the configuration merge;
  - the divergence test;
  - the flat/long position machine walking the zhongshu list;
  - its statistics, including the price drawdown against a running peak.
- **Interval-nesting (区间套) strategies** (`qujiantao_tdd.dfy` and `qujiantao_demo.dfy`, over the records in `chan_records.dfy`):
  - the first-match search over sub-level buy/sell points;
  - the per-level attempt and the collection of signals across levels.

`wrappers.dfy` holds the `Option`/`Result` datatypes and `seqs.dfy` holds a few sequence identities.

How the model represents the source:

- Timestamps in the CSV source are `(year, month, day, hour, minute)` records ordered lexicographically.
- Timestamps in the resampler are whole minutes from the epoch midnight.
- Prices and volumes are exact reals.
- A data file is a sequence of lines, and the file system is a map from file names to files.
- A generator is modelled by the items it yields and the error that ended it.
- Engine objects (K-line units, buy/sell points, bis, zhongshus) are plain records carrying the fields the strategies read.
- `get_kl_data`, `create_item_dict`, the `validate_data` column loop, both `_calculate_statistics` loops, the zhongshu `run_backtest` loop and both `analyze` loops are methods with loops. Each is proved equal to a specification function, and the properties are proved about those functions.

Two behaviours of the code that the model keeps as written:

- An empty-string `begin_date`/`end_date` is falsy, so the constructor never parses it (csvAPI.py:70-73). It is stored as text, and the first row that reaches the range comparison raises (csvAPI.py:112-115).
- `parse_time_column` makes no calendar check, so month 13 passes through.

## Model

| member | source | states |
|---|---|---|
| CsvApi.BeforeIsStrictTotalOrder | DataAPI/csvAPI.py:112-115 | the time order used by the range filter is irreflexive, asymmetric, transitive and total on distinct times |
| CsvApi.ParseDigits | DataAPI/csvAPI.py:25-27 | `int()` of a non-empty run of ASCII digits is its decimal value |
| CsvApi.PadValue | DataAPI/csvAPI.py:25-27 | a number below 10^w written with w zero-padded digits reads back as itself |
| CsvApi.ParseTimeColumn | DataAPI/csvAPI.py:18-52 | the unknown-format error occurs exactly when the length is not 10, 16, 17 or 19, and it carries the text and its length; a 10-character input always gives 00:00 |
| CsvApi.ReadDate | DataAPI/csvAPI.py:23-28 | the date form fails only when a field is not an integer, and on success hour and minute are 0 |
| CsvApi.DateTextRoundTrip | DataAPI/csvAPI.py:23-28 | `YYYY-MM-DD` (offsets 0:4, 5:7, 8:10) parses back to that date at 00:00 |
| CsvApi.MinuteTextRoundTrip | DataAPI/csvAPI.py:29-35 | `YYYY-MM-DD HH:MM` (hour at 11:13, minute at 14:16) parses back to the same time |
| CsvApi.SecondsIgnored | DataAPI/csvAPI.py:43-49 | a 19-character string parses exactly as its first 16 characters do; the 3 extra characters never matter |
| CsvApi.CompactRoundTrip | DataAPI/csvAPI.py:36-42 | the compact 17-character form reads month 4:6, day 6:8, hour 8:10 and minute 10:12; the last 5 characters are ignored |
| CsvApi.ParseMonth13Example | DataAPI/csvAPI.py:23-28 | `"2024-13-02"` parses to month 13, because no calendar check is made |
| CsvApi.ParseShortCompactExample | DataAPI/csvAPI.py:50-51 | the 8-character `"20240102"` is rejected, naming the string and the length 8 |
| CsvApi.FreqNameOfMinuteLevel | DataAPI/csvAPI.py:85-88 | every `K_<n>M` maps to `<n>m` |
| CsvApi.FreqName | DataAPI/csvAPI.py:83-93 | the frequency token is never longer than the K-line type name, and outside the `K_<n>M` form it holds no upper-case letter |
| CsvApi.FreqNameOfOtherLevel | DataAPI/csvAPI.py:89-93 | every `K_<n>` that is neither `K_DAY` nor of the `K_<n>M` form maps to `<n>` lower-cased with one leading `_` dropped |
| CsvApi.FileName | DataAPI/csvAPI.py:96 | the file name splits back into the code, `_`, the frequency token and `.csv` |
| CsvApi.FileNameExample | DataAPI/csvAPI.py:83-96 | AAPL at `K_5M` reads `AAPL_5m.csv` |
| CsvApi.OtherFreqNameExamples | DataAPI/csvAPI.py:83-93 | worked cases: `K_DAY` maps to `day`, `K_WEEK` to `week` and `K_MON` to `mon` |
| CsvApi.StripChar | DataAPI/csvAPI.py:103 | `strip("\n")` never lengthens the line, and neither end of its result is a newline |
| CsvApi.StripCharCuts | DataAPI/csvAPI.py:103 | `strip("\n")` returns a slice of the line, and everything cut from either side of it is a newline |
| CsvApi.Split | DataAPI/csvAPI.py:103 | `split(",")` gives at least one piece, and no piece contains a comma |
| CsvApi.SplitJoin | DataAPI/csvAPI.py:103 | splitting on the comma loses nothing: joining the pieces restores the line, and there is one more piece than there are commas |
| CsvApi.ConvertAll | DataAPI/csvAPI.py:13-14 | conversion succeeds exactly when every cell converts, and then gives each cell's value in order; on failure the error is that of a cell all of whose predecessors converted |
| CsvApi.ConvertAllFirstFailure | DataAPI/csvAPI.py:13-14 | the first cell that fails to convert decides the raised error |
| CsvApi.CreateItemDict | DataAPI/csvAPI.py:12-15 | the in-place conversion loop followed by the zip returns exactly the dictionary, or the first cell's error |
| CsvApi.ZipMap | DataAPI/csvAPI.py:15 | the dictionary's keys are exactly the column names |
| CsvApi.ZipMapLast | DataAPI/csvAPI.py:15 | a key's entry holds the value at its last position among the columns |
| CsvApi.TimeColumnFirstOnly | DataAPI/csvAPI.py:58-74 | the time column is the schema's first column and no other column is the time column |
| CsvApi.ItemDictTime | DataAPI/csvAPI.py:108-109 | on the fixed schema the dictionary always holds the time, parsed from the first cell |
| CsvApi.ParseBound | DataAPI/csvAPI.py:70-73 | an absent bound stays unbounded, a given time is kept as it is, and only the empty string is kept as unparsed text; any other string becomes the time `parse_time_column` reads from it, or raises its error |
| CsvApi.NewCsvSource | DataAPI/csvAPI.py:56-75 | construction succeeds exactly when both bounds parse; the begin bound's error comes first; the header flag is set |
| CsvApi.BadBoundRejected | DataAPI/csvAPI.py:70-73 | a string bound of an unknown length fails construction with its text and length |
| CsvApi.Admit | DataAPI/csvAPI.py:111-115 | a successful decision keeps a row exactly when it lies in the inclusive range; the filter fails exactly when it must compare with a bound kept as text |
| CsvApi.ParseRow | DataAPI/csvAPI.py:103-109 | a line whose split does not give 8 fields is a format error; a parsed row always holds its time |
| CsvApi.BlankLineIsFormatError | DataAPI/csvAPI.py:103-105 | an empty line and a lone newline are format errors |
| CsvApi.Scan | DataAPI/csvAPI.py:100-116 | the stream yields at most one item per line, and every item lies inside the range |
| CsvApi.ScanStopsAtError | DataAPI/csvAPI.py:100-116 | once a row has raised, later lines change nothing |
| CsvApi.ReadRow | DataAPI/csvAPI.py:103-116 | the loop body for one line gives the row's outcome: an error, nothing, or the item |
| CsvApi.GetKlData | DataAPI/csvAPI.py:77-116 | a missing file raises before any row is read; otherwise the loop yields exactly the stream `Scan` describes |
| CsvApi.ScanYieldsSelected | DataAPI/csvAPI.py:100-116 | the stream ends without error exactly when every data row parses and can be checked against the range; it then yields the in-range rows in file order |
| CsvApi.HeaderNeverRead | DataAPI/csvAPI.py:101-102 | with a header, replacing line 0 by any text leaves the stream unchanged |
| CsvApi.InclusiveRangeExample | DataAPI/csvAPI.py:112-115 | both range ends are inclusive: of January 1 to 5, the range from the 2nd to the 4th keeps exactly those three days and drops the 1st and the 5th |
| Resampler.LabelBounds | DataAPI/DataUtil/resampler.py:53-54 | a bar at t lies in its bucket `[label, label + width)`, whose label is a whole number of widths past the origin |
| Resampler.LabelMonotone | DataAPI/DataUtil/resampler.py:53-54 | a later bar never gets an earlier bucket |
| Resampler.SameLabel | DataAPI/DataUtil/resampler.py:53-54 | two bars share a label exactly when they share a bucket index |
| Resampler.LabelIsWallClockFloor | DataAPI/DataUtil/resampler.py:53-54 | with a day-start origin and a width dividing a day, the label is the timestamp floored to the width |
| Resampler.LabelOfCoarserLabel | DataAPI/DataUtil/resampler.py:54 | labelling at a width, then at a multiple of it, is labelling at the multiple |
| Resampler.AggregateMeaning | DataAPI/DataUtil/resampler.py:38-50 | a bucket's bar takes open and code from its first bar and close from its last; its high is the largest high and its low the smallest low, both attained; volume and turnover are the sums |
| Resampler.CombineAssociative | DataAPI/DataUtil/resampler.py:38-50 | folding a bucket bar by bar does not depend on how the bars are grouped |
| Resampler.BucketMissing | DataAPI/DataUtil/resampler.py:54-57 | a label that no bar has has an empty bucket |
| Resampler.GroupLabels | DataAPI/DataUtil/resampler.py:54-57 | the output labels strictly increase and are exactly the labels of the non-empty buckets |
| Resampler.GroupBars | DataAPI/DataUtil/resampler.py:38-57 | each output bar is the aggregate, in time order, of its bucket's bars |
| Resampler.GroupTwice | DataAPI/DataUtil/resampler.py:54 | grouping at a width and then at a multiple of it equals grouping at the multiple directly |
| Resampler.ConsecutiveBucketCount | DataAPI/DataUtil/resampler.py:54-57 | one bar per minute gives one output bar per bucket index from the first bar to the last |
| Resampler.Resample | DataAPI/DataUtil/resampler.py:13-62 | a table with neither `time` nor `date` fails; a table lacking an aggregated column fails, naming the missing ones; otherwise the result has the output columns and no more rows than the input |
| Resampler.ResampleColumns | DataAPI/DataUtil/resampler.py:28-50 | the output has `time` and the five aggregated columns, `code` and `turnover` exactly when the input has them, and never `date` |
| Resampler.ResampleMeaning | DataAPI/DataUtil/resampler.py:54-60 | output rows strictly increase in time, one per non-empty bucket, each the aggregate of its bucket |
| Resampler.ResampledOrigin | DataAPI/DataUtil/resampler.py:54 | the output starts its bucket layout at the same midnight as the input |
| Resampler.ResampleTwice | DataAPI/DataUtil/resampler.py:13-62 | resampling to a width and then to a multiple of it gives the same table as resampling straight to the multiple |
| Resampler.FourHoursOfMinutes | DataAPI/DataUtil/resampler.py:54-60 | 240 one-minute bars from 09:30 give 48 five-minute rows (the first labelled 09:30), 8 thirty-minute rows and one daily row |
| Resampler.Find | DataAPI/DataUtil/resampler.py:115-116 | a timestamp finds a bar exactly when a row carries it |
| Resampler.FindFirstRow | DataAPI/DataUtil/resampler.py:115-116 | the bar found for a timestamp is that of the first row carrying it |
| Resampler.FailingMembers | DataAPI/DataUtil/resampler.py:121-135 | a column is reported exactly when it is compared, both tables have it, and some common timestamp is out of its allowance |
| Resampler.MismatchMapStep | DataAPI/DataUtil/resampler.py:131-135 | a failing column adds its message to the report, and the report is empty exactly when nothing failed |
| Resampler.CompareColumns | DataAPI/DataUtil/resampler.py:118-135 | the column loop visits every column without stopping early: `diff` holds one message per failing column, and `is_valid` holds exactly when none failed |
| Resampler.ValidateData | DataAPI/DataUtil/resampler.py:81-137 | the method returns the reference comparison: no time column is an error, no common timestamp gives `(False, "No common dates found")`, otherwise the verdict and the report |
| Resampler.VerdictMatchesReport | DataAPI/DataUtil/resampler.py:118-137 | the verdict is true exactly when the report is empty, and every reported column is a compared column both tables have, under its message |
| Resampler.IdenticalTablesPass | DataAPI/DataUtil/resampler.py:111-137 | a table compared with itself passes with an empty report, for any non-negative tolerance |
| Resampler.ValidationSymmetric | DataAPI/DataUtil/resampler.py:111-135 | swapping the two tables changes neither verdict nor report |
| Resampler.OneRowAgreement | DataAPI/DataUtil/resampler.py:128-135 | at one common time, a column agrees exactly when the difference lies within its allowance (1 for volume, the tolerance for prices) |
| Resampler.OneRowValidation | DataAPI/DataUtil/resampler.py:121-137 | for one-row tables the report lists exactly the aggregated columns out of allowance, and the verdict is that none is |
| Resampler.ExampleMessages | DataAPI/DataUtil/resampler.py:131-135 | the open column's message is `open mismatch` and volume's is `Volume mismatch` |
| Resampler.ShiftedOpenFails | DataAPI/DataUtil/resampler.py:133-135 | raising one open by 1.0 fails the comparison and reports `open` alone |
| Resampler.CloseWithinTolerance | DataAPI/DataUtil/resampler.py:133 | a close that differs by exactly the default tolerance passes |
| Resampler.VolumeWithinOne | DataAPI/DataUtil/resampler.py:128-129 | a volume that differs by 1 passes |
| Resampler.VolumeBeyondOne | DataAPI/DataUtil/resampler.py:128-131 | a volume that differs by 2 fails and reports `Volume mismatch` alone |
| MyStrategy.DefaultConfig | scripts/my_strategy.py:30-39 | the defaults have exactly the six documented keys |
| MyStrategy.ConfigChoice | scripts/my_strategy.py:27 | a non-empty configuration is used as given, with no merge; a missing or empty one yields the defaults |
| MyStrategy.CustomConfigNotMerged | scripts/my_strategy.py:27 | a two-key custom configuration keeps exactly its own keys |
| MyStrategy.Wins | scripts/my_strategy.py:221 | at most as many winners as trades |
| MyStrategy.TrackPeak | scripts/my_strategy.py:228-236 | the loop's cumulative profit is the total, and its peak is never below it; the peak is the highest cumulative profit so far, counting the zero start, and is attained |
| MyStrategy.FallBounded | scripts/my_strategy.py:228-236 | no fall of cumulative profit, from an earlier point to a later one, exceeds the maximum drawdown |
| MyStrategy.FallAttained | scripts/my_strategy.py:228-236 | some fall of cumulative profit equals the maximum drawdown |
| MyStrategy.DrawdownIsLargestFall | scripts/my_strategy.py:228-236 | the maximum drawdown is the largest fall of cumulative profit from any earlier point to any later one |
| MyStrategy.DrawdownBounds | scripts/my_strategy.py:228-236 | the drawdown is never negative, and is 0 when no trade lost money |
| MyStrategy.WinRateBounds | scripts/my_strategy.py:220-222 | the win rate lies in [0, 1] |
| MyStrategy.ThreeTradesExample | scripts/my_strategy.py:220-245 | trades of 1000, -500 and 1500 give 3 trades, 2 winners, total 2000, average 2000/3 and drawdown 500 |
| MyStrategy.ProfessionalStrategy.constructor | scripts/my_strategy.py:25-28 | stores the code, the chosen configuration and an empty result list |
| MyStrategy.ProfessionalStrategy.CalculateStatistics | scripts/my_strategy.py:209-245 | with no trades everything is 0 and there is no winning count; otherwise the counts, sums and drawdown loop; the win rate is in [0, 1] and the drawdown is non-negative |
| ZhongshuStrategy.DefaultConfig | scripts/strategy_5m_zhongshu.py:35-45 | the defaults have exactly the seven documented keys |
| ZhongshuStrategy.MergeKeepsDefaults | scripts/strategy_5m_zhongshu.py:29-33 | a given configuration is merged over the defaults: its values win and untouched defaults survive |
| ZhongshuStrategy.DivergenceMeaning | scripts/strategy_5m_zhongshu.py:184-217 | a divergence has at least three bis, a strictly falling zhongshu and a last bi ending below its low; for a rate of at most 1 the last bi is strictly shorter than the previous one |
| ZhongshuStrategy.NoDivergenceCases | scripts/strategy_5m_zhongshu.py:189-201 | a missing bi list, fewer than three bis, or a zhongshu that does not fall rules divergence out |
| ZhongshuStrategy.Profit | scripts/strategy_5m_zhongshu.py:124 | with no quantity the profit is 0; with a positive quantity it is positive exactly when the exit price is above the entry |
| ZhongshuStrategy.ReturnOn | scripts/strategy_5m_zhongshu.py:125 | the return times the entry price is the price change |
| ZhongshuStrategy.Visit | scripts/strategy_5m_zhongshu.py:88-174 | each visit appends exactly one curve entry and keeps the earlier ones |
| ZhongshuStrategy.VisitSells | scripts/strategy_5m_zhongshu.py:121-155 | a sale records the trade at the zhongshu's price, with profit on the held quantity and return on the entry, and resets the position with quantity 0 |
| ZhongshuStrategy.Run | scripts/strategy_5m_zhongshu.py:88-174 | a run makes one curve entry per zhongshu |
| ZhongshuStrategy.VisitKeeps | scripts/strategy_5m_zhongshu.py:120-172 | every visit keeps the machine's invariant |
| ZhongshuStrategy.RunInvariant | scripts/strategy_5m_zhongshu.py:88-174 | after any run, actions alternate starting with a buy, the position is long exactly after a buy, one trade is recorded per sale, and only the first trade carries 1000 shares; every later one has quantity 0 and profit 0 |
| ZhongshuStrategy.SellGuardIndexAlwaysHolds | scripts/strategy_5m_zhongshu.py:121 | while long, the buy index is always earlier, so `i > last_buy_zs_idx` never decides anything |
| ZhongshuStrategy.SaleFollowsBuy | scripts/strategy_5m_zhongshu.py:121-164 | every sale closes the buy at an earlier entry, with no action between them |
| ZhongshuStrategy.CurveEntry | scripts/strategy_5m_zhongshu.py:88-165 | entry i records zhongshu i's price, date and direction; it is a buy exactly when flat, falling and divergent, and a sale exactly when long and rising |
| ZhongshuStrategy.RunCurveGrows | scripts/strategy_5m_zhongshu.py:88-112 | entries already on the curve never change |
| ZhongshuStrategy.RunStopsAtError | scripts/strategy_5m_zhongshu.py:121-125 | a division by a zero entry price ends the run, whatever follows |
| ZhongshuStrategy.BuyThenSellExample | scripts/strategy_5m_zhongshu.py:121-164 | a falling divergent zhongshu at 10 followed by a rising one at 12 gives one trade of 1000 shares, earning 2000 at a return of 20% |
| ZhongshuStrategy.PeakIsHighest | scripts/strategy_5m_zhongshu.py:240-243 | the running peak is the highest price so far, the first included, and is attained |
| ZhongshuStrategy.DrawdownIsLargestFall | scripts/strategy_5m_zhongshu.py:238-245 | when the drawdown loop succeeds its peak is the running maximum and no peak was zero; the result is at least every (running peak − price) / running peak and, unless it is the starting 0, equal to one of them |
| ZhongshuStrategy.FallBounds | scripts/strategy_5m_zhongshu.py:238-245 | for positive prices the drawdown loop never fails and its result lies in [0, 1) |
| ZhongshuStrategy.PriceDrawdownBounds | scripts/strategy_5m_zhongshu.py:238-245 | for positive prices the curve's drawdown is in [0, 1) |
| ZhongshuStrategy.DrawdownExample | scripts/strategy_5m_zhongshu.py:238-245 | prices 10, 8, 12, 9 give a peak of 12 and a drawdown of 25% |
| ZhongshuStrategy.FallStopsAtError | scripts/strategy_5m_zhongshu.py:244 | a zero peak ends the drawdown loop with an error |
| ZhongshuStrategy.ZhongshuBacktest.constructor | scripts/strategy_5m_zhongshu.py:29-33 | stores the code and the merged configuration |
| ZhongshuStrategy.ZhongshuBacktest.CalculateStatistics | scripts/strategy_5m_zhongshu.py:219-253 | with no trades all statistics are 0, even with a non-empty curve; otherwise the counts, sums and the price drawdown loop, whose result `DrawdownIsLargestFall` characterizes |
| ZhongshuStrategy.ZhongshuBacktest.RunBacktest | scripts/strategy_5m_zhongshu.py:66-182 | the loop walks the zhongshus exactly as the position machine does, then computes the statistics |
| ChanRecords.LastUnit | strategy/qujiantao_strategy_tdd.py:50-53 | the parent's last unit exists exactly when there is a combined K-line and the last one is not empty |
| ChanRecords.FirstMatch | strategy/qujiantao_strategy_tdd.py:68-83 | the result is the first accepted point in list order; there is none exactly when no point is accepted |
| ChanRecords.FirstMatchWithDirection | strategy/qujiantao_strategy_demo.py:79-95 | also requiring a direction can only move the match later or lose it, and changes nothing when every point already points that way |
| ChanRecords.CollectMeaning | strategy/qujiantao_strategy_tdd.py:124-136 | the signals are one per successful level, in level order, each tagged with its own level |
| QujiantaoTdd.CalQjtBsp | strategy/qujiantao_strategy_tdd.py:24-102 | a signal's parent is the last parent point, sitting on the parent's last unit; its sub point is a same-direction first-type point of that unit; direction comes from the parent; type is `区间套` plus the sub type; price and time come from the sub unit |
| QujiantaoTdd.CalQjtBspMeaning | strategy/qujiantao_strategy_tdd.py:42-83 | a signal exists exactly when the parent has points and a last unit, the last point sits on it, and some same-direction first-type sub point belongs to it; the chosen one is the first such point |
| QujiantaoTdd.TryOpen | strategy/qujiantao_strategy_tdd.py:104-114 | a level signals only when it is not the lowest and has at least one bi, and such a level returns exactly the interval-nesting point of it and the next level |
| QujiantaoTdd.Analyze | strategy/qujiantao_strategy_tdd.py:116-136 | the loop collects the levels' signals in order, each tagged with its level, at most one per level except the lowest |
| QujiantaoTdd.MockExample | tests/verify_logic_mock.py:57-105 | a parent buy of type 1 at unit 10 and a sub buy of type 1 inside it give the buy signal at the sub-level close 98 |
| QujiantaoDemo.CalQjtBsp | strategy/qujiantao_strategy_demo.py:38-97 | as in the test-driven variant, but the sub point need not point the parent's way; the direction still comes from the parent |
| QujiantaoDemo.CalQjtBspMeaning | strategy/qujiantao_strategy_demo.py:58-95 | a signal exists exactly when the parent has a last unit and points, the last point sits on that unit, and some first-type sub point of either direction belongs to it; the chosen one is the first such point |
| QujiantaoDemo.ExtendsTdd | strategy/qujiantao_strategy_demo.py:79-95 | whenever the test-driven variant signals, so does this one, on the same parent point; they agree exactly when every sub point points the parent's way |
| QujiantaoDemo.TryOpen | strategy/qujiantao_strategy_demo.py:99-119 | a level signals only when it is not the lowest and has at least one bi, and such a level returns exactly the interval-nesting point of it and the next level |
| QujiantaoDemo.Analyze | strategy/qujiantao_strategy_demo.py:121-140 | the loop collects the levels' signals in order, each tagged with its level, at most one per level except the lowest |
| QujiantaoDemo.OppositeDirectionExample | strategy/qujiantao_strategy_demo.py:79-95 | a parent buy answered only by a sub-level sell of type 1 is a buy signal here and no signal in the test-driven variant |

## Left out

- File and console I/O: the file handle, `os.path` calls, `resample_from_csv`, all debug printing and the JSON output. The file system is a map from file names to lines.
- The external engine: `CChan` construction and loading, `CChanConfig`, `CKLine_Unit` and the enums. The strategies receive plain records (levels with their combined K-lines, buy/sell points and bi count; zhongshus with their closes, range, peaks and bis).
- `CTime` is external. The model's time is the five-field record, accepting any integers and ordered lexicographically.
- `str2float` is external. It is the total parameter `toFloat`, so a numeric cell never fails to convert in the model.
- CsvApi.ParseInt: Python's `int()` also accepts underscores between digits, non-ASCII digits and non-ASCII whitespace (such as U+0085, U+00A0 and U+3000). The model accepts only the ASCII whitespace `int()` strips (space, tab, `\n`, `\r`, `\v`, `\f` and 0x1C to 0x1F), an optional sign and ASCII digits.
- CsvApi.FreqName: lower-casing is modelled for ASCII letters only. The K-line type names are ASCII enum names, so no other letter occurs there.
- Resampler.Resample: the frequency string (`'5T'`, `'D'`) becomes a width in minutes. Pandas' `DatetimeIndex`, `to_datetime` and NaN handling are not modelled, so `dropna` only drops the empty buckets.
- Resampler.Resample: requires the table's index in time order. Pandas also bins an unsorted index.
- Resampler.ValidateData: requires that no timestamp indexes two rows of the same table. With duplicates the source compares arrays of different lengths, which the model does not represent.
- Resampler.ValidateData: floats are exact reals, so rounding, NaN, and `np.allclose`'s relative term are not modelled. With `rtol=0` that term is zero anyway.
- Resampler: the input table is not modified because the model works on values, so the copy the source makes is implicit.
- MyStrategy: `run_backtest`, `_analyze_bi_direction`, `_analyze_zhongshu` and the `_custom_*_condition` methods read engine objects only. Their `BI_DIR` comparison cannot be settled without the enum, so they are not modelled. A trade is only its profit.
- MyStrategy.ProfessionalStrategy: the `results` field is kept, but no modelled operation writes it. The unused `equity_curve` parameter of `_calculate_statistics` is dropped.
- ZhongshuStrategy.ZhongshuBacktest.RunBacktest: requires a numeric `divergence_rate`. A text value would raise in the source only when a divergence test is reached.
- ZhongshuStrategy.ZhongshuBacktest.RunBacktest: the engine's last K-line unit is a parameter, used for a zhongshu with no bis. An empty K-line list, which would raise in the source, is not represented.
- ZhongshuStrategy: the sell guard compares `i` with `last_buy_zs_idx`, which is `None` when flat. The position is never long without a recorded buy, so that comparison is unreachable. It is modelled as false.
- QujiantaoTdd, QujiantaoDemo: the `name` and `debug` fields are dropped, and a missing `sup_kl` attribute is an absent optional parent index.
- QujiantaoDemo.CalQjtBsp: a sub level without `bs_point_lst` is treated as one with an empty list.
- The toolkit's scripts and checkers outside these six files are not part of this model: downloads, parameter sweeps, plotting, reports, environment setup and the CSV checkers.
