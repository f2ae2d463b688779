# Listening-log tallies

A Dafny model of the tally layer of `MP1.py`, a script that analyses a
listening log. Each row of the log records a date, a listening time
(`HH:MM`), a genre, a duration in minutes and a streaming platform.

The script runs in this order:

1. Normalises the column names.
2. Parses the listening time.
3. Derives the weekday label and the hour bucket of every row.
4. Removes duplicate rows, then rows with a missing cell.
5. Computes:
   - the number of listens per hour;
   - the number of listens per weekday, in the fixed order Lundi … Dimanche;
   - a weekday × hour table behind a heatmap;
   - the most listened genre;
   - the minutes listened per platform;
   - the platform used most on Saturdays and Sundays;
   - the number of sessions.

Modules:

- `Wrappers`: `Option` and `Result`.
- `Tally`: generic counting over sequences. This covers `Count`, `Dedup` (pandas' `drop_duplicates`, keep first), `ValueCounts`, `Lookup`/`Reindex` (`Series.reindex`, where an absent key gives a missing entry) and `IdxMax` (`Series.idxmax`, absent on an empty table). The lemmas about them live here too.
- `Headers`: `str.strip().lower().replace('é', 'e')` on every header (line 31), and `Select`, the column that `df[name]` finds once the headers are normalised.
- `Events`: the `%H:%M` time parser, the French day labels, and the row types:
  - `RawRow`: a row as loaded;
  - `Row`: a row with the derived columns;
  - `Event`: a complete row.
- `Cleaning`: lines 34-45, in two forms, both on values:
  - as functions: `DeriveAll`, `Dedup`, `DropNA`, `Clean`;
  - as loops: `DeriveRows`, `DropDuplicates` with a set of rows already seen, `DropIncomplete`, and `Prepare` composing them.

  Each method is proved equal to its function.
- `Temporal`: the hourly table, the weekday table and the heatmap (lines 64, 73-75 and 82).
- `Preferences`: the most listened genre, the per-platform totals and the weekend platform (lines 99, 119 and 122).
- `Report`: a whole run.
  - `Run` is the function form and `Analyse` is the method. Both take the header row and the loaded rows.
  - `RunFailsExactlyWhen` states when a run fails, and `RunCorrect` states what a successful run's outputs satisfy.

Modelling choices:

- **Dates.** A date arrives already parsed, as a day number counted from 1970-01-01. Its weekday is `(n + 3) % 7`, with Monday = 0, which is pandas' `dayofweek`.
- **Weekday labels.** The label `day_name(locale='French')` gives is the entry of `jours_order` at that index. The statistics count weekday indices, and `DayLabelInjective` shows that this is the same as counting labels.
- **Time parsing.** pandas' `%H:%M` accepts:
  - an hour of one digit, or two digits up to 23;
  - a colon;
  - a minute of one digit, or two digits up to 59;
  - nothing after the minute.

  A present time that does not parse stops the script, so the model gives `Err(MalformedTimeAt(i))` for the first such row. A missing time stays missing and leaves the hour missing.
- **`idxmax` on an empty table** raises in pandas:
  - for the genre, this happens when no row survives cleaning;
  - for the platform, it happens when no event falls on a weekend.

  The model returns `Err(NoGenre)` or `Err(NoWeekendEvent)` in these cases.
- **Column lookups.** The header row `hs` is `df.columns` as `read_csv` returns it. `read_csv` renames a header repeated exactly in the file to `x.1`, so two headers of `hs` can share a normalised name only when they differ before line 31, such as " Genre" and "genre". The script reads five columns by their normalised names: `date` and `heure_ecoute` at lines 34-35, `genre` at line 99, `duree` at line 103 and `plateforme` at line 119. A name that no header normalises to raises KeyError there. A name that two headers normalise to selects a table instead of a column. The model checks each lookup where the script first makes it and fails with `MissingColumn` or `DoubledColumn`. The first two are checked before any time is parsed, `genre` before the genre selection, and the other two before the weekend selection.
- **`dropna`** considers every column, so the model treats any further columns of the log as `extra` cells.
- **Missing weekdays.** `reindex(jours_order)` gives a missing value, not 0, for a weekday without events. In the heatmap that weekday's whole row is missing. `fill_value=0` only fills absent (weekday, hour) pairs of weekdays and hours that do occur. The model uses `Option` for these cells.

## Model

| member | source | states |
|---|---|---|
| Headers.NormalizeAll | MP1.py:31 | every header is replaced by its normalised form, and the number of columns is unchanged |
| Headers.NormalizeShape | MP1.py:31 | a normalised header has no white space at either end, no upper-case letter and no 'é' |
| Headers.NormalizeFixesNormalized | MP1.py:31 | a header already in that shape is left as it is |
| Headers.NormalizeIdempotent | MP1.py:31 | normalising twice gives the same header as normalising once |
| Headers.StripShape | MP1.py:31 | strip keeps a middle stretch of the text, removes only white space around it, and leaves no white space at either end |
| Headers.SelectCorrect | MP1.py:31-35 | (about `Select`) `df[name]` is missing exactly when no header normalises to name, doubled exactly when two headers do, and otherwise selects the one column whose header does |
| Headers.SelectIgnoresSpellingOfHeader | MP1.py:31 | a header whose normalised name no other header shares selects its own column under that name, whatever its capitals, accents or surrounding blanks |
| Tally.CountAtLeastTwo | MP1.py:31 | an element is counted at least twice exactly when it sits at two different positions |
| Events.ParseClock | MP1.py:35 | a time parses only when there is a ':', the text before the first ':' is a valid hour field and the text after it a valid minute field; the hour and minute are their decimal values |
| Events.ParseClockAccepts | MP1.py:35 | every hour field up to 23 and minute field up to 59, joined by ':', parses to exactly that hour and minute |
| Events.HourBucketIsLeadingField | MP1.py:35-40 | a row whose time reads HH:MM gets an hour bucket, which is the value of the HH part and lies in 0..23 |
| Events.Derive | MP1.py:34-40 | a row fails exactly when its time is present and does not parse; otherwise the weekday is present exactly when the date is and is the date's weekday, and the hour is present exactly when the time is and is the parsed time's hour; a missing time stays missing; date, genre, duration, platform and the further cells are carried over unchanged |
| Events.DayLabelInjective | MP1.py:39 | two weekdays have the same French label exactly when they are the same weekday |
| Events.WeekendLabelsAreSaturdayAndSunday | MP1.py:122 | a weekday's label is Samedi or Dimanche exactly when it is weekday 5 or 6 |
| Cleaning.DeriveAll | MP1.py:34-40 | the conversion succeeds exactly when no time is malformed; on success each row is the derived form of the input row at the same position; on failure the error names the first row whose time is malformed |
| Cleaning.DeriveRows | MP1.py:34-40 | the row-by-row loop computes exactly `DeriveAll` |
| Cleaning.DropDuplicates | MP1.py:45 | the loop with a set of rows already seen computes exactly `Dedup` |
| Cleaning.DropIncomplete | MP1.py:45 | the loop computes exactly `DropNA` |
| Cleaning.Prepare | MP1.py:34-45 | converting, deduplicating and dropping incomplete rows in sequence gives exactly `Clean`, the function form of lines 34-45 |
| Cleaning.DropNAMembers | MP1.py:45 | dropna keeps a row exactly when it is complete, and every row kept is complete |
| Cleaning.DropNACommutesWithDedup | MP1.py:45 | dropping duplicates and then incomplete rows is the same as doing them in the other order |
| Cleaning.DropNAKeepsOrder | MP1.py:45 | dropping incomplete rows keeps the first-occurrence order of the rows that remain |
| Cleaning.CleanedCorrect | MP1.py:45 | (about `Cleaned`) after cleaning no two rows are equal; a row remains exactly when an equal input row is complete; rows keep the order of their first occurrences; the output is no longer than the input |
| Cleaning.SessionsCorrect | MP1.py:139 | (about `Sessions` of `Clean`) the session count is the length of the cleaned table and never exceeds the number of rows loaded |
| Tally.Count | MP1.py:64 | a count is at most the length and is zero exactly when the element is absent |
| Tally.Dedup | MP1.py:45 | the deduplicated sequence has the same elements as the input, none twice, and is no longer |
| Tally.DedupKeepsFirstOccurrenceOrder | MP1.py:45 | deduplication keeps elements in the order of their first occurrences |
| Tally.ValueCountsCorrect | MP1.py:64 | (about `ValueCounts`) value_counts has one entry per distinct element and no other; each count is that element's positive count; the counts add up to the length |
| Tally.CountsSumToLength | MP1.py:64 | counts over distinct keys that cover every element add up to the number of elements |
| Tally.Lookup | MP1.py:75 | a lookup finds an entry exactly when the key is in the table |
| Tally.LookupTableOf | MP1.py:75 | looking a key up in a table of counts gives its count when the key is listed, and nothing otherwise |
| Tally.ReindexValueCounts | MP1.py:75 | (about `Reindex`) reindexing value_counts on an order gives one entry per key of the order, the count for a key that occurs and a missing entry for one that does not |
| Tally.SumPresentReindex | MP1.py:75 | when the order is repetition free and covers every element, the present entries of the reindexed table add up to the length |
| Tally.IdxMax | MP1.py:99 | idxmax is absent exactly on an empty table; otherwise it is the key of an entry whose count no entry exceeds |
| Tally.MostFrequent | MP1.py:99 | value_counts().idxmax() is absent exactly on an empty sequence; otherwise it is an element whose count no element's count exceeds |
| Tally.SameElementsSameLength | MP1.py:64 | two repetition-free sequences with the same elements have the same length |
| Temporal.PresentBelow | MP1.py:64 | the hours below a bound that occur, each once and in strictly ascending order |
| Temporal.PresentHoursCorrect | MP1.py:64 | (about `PresentHours`) the hour columns are strictly ascending and are exactly the hours at which an event happens |
| Temporal.HourTableCorrect | MP1.py:64 | (about `HourTable`) the hourly table's keys are strictly ascending and are exactly the hours present; each count is positive and equals the number of events in that hour; the counts add up to the number of events |
| Temporal.HourTableIsSortedValueCounts | MP1.py:64 | (about `HourTable`) the hourly table has the same entries as value_counts of the hours, and as many, sorted by hour |
| Temporal.CountDayLabels | MP1.py:75 | counting French labels gives the same result as counting weekdays |
| Temporal.DayTableCorrect | MP1.py:73-75 | (about `DayTable`) the weekday table has seven entries in the order Lundi … Dimanche; a weekday with events carries their number and one without is missing; the present counts add up to the number of events |
| Temporal.HeatmapCorrect | MP1.py:82 | (about `HeatmapData`) the columns are the hours present, ascending; the rows follow jours_order; for a weekday with events each cell is the number of its events in that hour, 0 when there are none; for a weekday without events every cell is missing |
| Temporal.HeatmapRow | MP1.py:82 | (about `HeatmapData`) a weekday's row is its filled pivot row when it has events, and a blank row otherwise |
| Temporal.HeatmapRowSums | MP1.py:73-82 | (about `HeatmapData` and `DayTable`) the cells of a weekday with events add up to its count, and that count is its entry in the weekday table |
| Temporal.HoursOnCount | MP1.py:82 | the pivot cell for (weekday label, hour) is the number of events on that weekday in that hour |
| Preferences.TopGenreCorrect | MP1.py:99 | (about `TopGenre`) the top genre is absent exactly when there are no events; otherwise it is some event's genre and no event's genre is counted more often |
| Preferences.WeekendEvents | MP1.py:122 | the weekend selection keeps the events on weekday 5 or 6 and no others |
| Preferences.WeekendEventsCount | MP1.py:122 | every Saturday or Sunday event occurs in the selection as often as in the events, and every other event not at all |
| Preferences.WeekendPlatformCorrect | MP1.py:122 | (about `WeekendPlatform`) the weekend platform is absent exactly when no event falls on weekday 5 or 6; otherwise it is the platform of such an event, and no platform occurs more often among those events |
| Preferences.TotalsOver | MP1.py:119 | the totals over distinct platforms add up to the minutes listened on those platforms |
| Preferences.PlatformTotalsCorrect | MP1.py:119 | (about `PlatformTotals`) one total per platform that occurs, none twice, each the minutes listened on it, together all the minutes listened |
| Report.ColumnFault | MP1.py:34-35 | a list of lookups `df[name]` succeeds exactly when each of them selects one column |
| Report.ColumnFaultIsFirst | MP1.py:34-35 | a failing list of lookups fails with the fault of its first failing lookup, as the script stops at the first KeyError |
| Report.ColumnFaultConcat | MP1.py:34-119 | lookups joined from two lists succeed exactly when both lists do |
| Report.RequiredColumnsFault | MP1.py:34-119 | the header row passes exactly when the lookups at lines 34-35, at line 99 and at lines 103 and 119 all do |
| Report.Analyse | MP1.py:28-140 | the method computes exactly `Run`, the function form of a whole run |
| Report.RunFailsExactlyWhen | MP1.py:28-140 | (about `Run` and `Statistics`) leaving plotting aside, a run fails exactly when a column that is read by name is missing or doubled, a time is malformed, or no cleaned event falls on a weekend |
| Report.StatisticsCorrect | MP1.py:64-139 | (about `Statistics`) statistics that succeed hold the hourly table, the weekday table, the heatmap and the per-platform totals of the events, and count one session per event; the hourly and weekday tables each account for every event; the genre and weekend platform are maximal choices |
| Report.RunCorrect | MP1.py:28-140 | (about `Run` and `Statistics`) a successful run holds the hourly table, the weekday table, the heatmap and the per-platform totals of the cleaned events, and counts one session per cleaned event; the hourly and weekday tables each account for every session; the genre and weekend platform are maximal choices |

## Left out

- Reading the CSV file, its encoding and the byte-order mark (line 28): the model starts from the header row as strings and the rows already loaded.
- Headers.Select: the header row only decides whether the lookups by name succeed. The cells of each row arrive already bound to the fields of `RawRow`, so the model does not take cells from the column positions `Select` finds, and it does not check that a row has one cell per header.
- Report.ColumnFault: a doubled column fails at its first lookup in the model. In pandas, `df[name]` then selects a table. For `date` and `heure_ecoute`, `to_datetime` raises on that table at lines 34-35. For `genre` and `plateforme`, `groupby` raises on the table at lines 103 and 119, and for `genre` that is later than line 99. For `duree`, the script most likely stops at line 103, where `sort_values()` without a column fails on the two-column result. The model fails there too.
- Lines 39-40 overwrite any loaded column named `jour_semaine` or `heure_arrondie`. The model has no loaded columns of those names.
- Headers.Normalize: only handles ASCII and Latin-1 letters and Python's white-space characters; full Unicode case mapping (`str.lower` beyond U+00FF, multi-character lowerings) is not modelled.
- Free-format date parsing `pd.to_datetime(df['date'])` (line 34): the model takes the date as a day number. An unparsable date and a time of day inside the date column are not modelled.
- `day_name(locale='French')` (line 39) depends on the runtime locale; the model maps the weekday index onto `jours_order` directly.
- Events.ParseClock: accepts ASCII digits only, while the pattern pandas uses also matches other Unicode decimal digits. Texts pandas reads as missing (such as "NaT" or an empty cell) must arrive as missing cells.
- Plotting, styling, PNG saving and `os.makedirs` (lines 60-86, 102-106) are side effects, and the model has no step that can fail there. Plotting an empty hourly or weekday table may raise in the plotting library.
- Report.RunFailsExactlyWhen: its "fails exactly when" describes the run without plotting. In the script, line 83 most likely stops the run whenever some weekday has no events. The missing cells that `reindex(jours_order)` adds at line 82 make the table floating point, and `annot=True, fmt='d'` cannot format such cells. Every run without a weekend event is one of these, so it stops at line 83, before lines 99 and 122. The model instead keeps the heatmap table with its missing cells and carries on.
- Mean durations per genre and overall (lines 103 and 138) are floating-point divisions and are not modelled. The results row therefore has no mean duration.
- The results CSV export and the final `print` (lines 135-145) are output plumbing.
- Preferences.PlatformTotals: `groupby` gives its keys in sorted order; the model lists platforms in order of first appearance. Only the set of entries and their sums are stated.
- Tally.ValueCounts: `value_counts` sorts by descending count; the model keeps first-appearance order. Only the entries are stated, and `idxmax` is only promised to pick some largest entry, not which of several ties.
- Durations are whole minutes (`int`); the source's column may hold other numbers.
- The error messages pandas raises are reduced to the kinds of `Cleaning.Fault`.
