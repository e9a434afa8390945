# Cooking sessions from smart-meter readings

This project models `cooking_session.py`, a pandas script that turns a table of
electricity-meter readings from electric pressure cookers into a table of
cooking sessions. The script has six steps, and the model follows each one.

1. `remove_spikes` lowers a reading whose cumulative energy exceeds the
   next reading of the same meter by more than `min_size_of_spikes`, to that
   next reading's energy. It makes 100 vectorised passes over the table.
2. `load_on` marks every reading that draws a load. The mark is the energy it
   took since the previous reading of the same meter.
3. `cooking_event` does several things:
   - counts the marks;
   - dates every row by its latest mark;
   - sets start and end flags with an ordered cascade of masked assignments;
   - numbers the events by a running count of start flags;
   - gives every row the first and last timestamp of its event, the event's
     duration and the row's offset into it;
   - takes the number away from a lone reading whose energy barely rose.
4. `timestamp_issue` takes the first row of every (meter, event) group, in
   table order (`head(1)`). It flags an event when that row's energy plus
   `min_cooking_event` is at most the energy of the row above it in that
   table, and both rows belong to the same meter. It repeats the test on the
   last row of every group (`tail(1)`); an event flagged by the first test
   stays flagged. It then drops, by index label, every row whose timestamp
   is that of a row of a flagged event. Since the label is the timestamp,
   this also removes rows of other meters read at the same minute (see
   "## Findings"). The model's driver chain uses the intended filter, which
   drops exactly the rows of flagged events.
5. `only_events` aggregates each (meter, event) group. It computes:
   - the highest and lowest energy and their difference;
   - the longest duration;
   - the first timestamp;
   - the number of readings;
   - the mean power.

   It then drops implausible events, prices the rest at a tariff and counts
   them.
6. `period` keeps the sessions inside a time window. The driver at the end of
   the script chains all the steps.

Modules:

| module | covers |
|---|---|
| `Frame` (frame.dfy) | The reading row and the event parameters. It also holds pandas' building blocks as the script uses them: `cumsum` over a boolean column (`RunningCount`), `groupby(...).first()` and `.last()` mapped back onto rows (`GroupFirst`, `GroupLast`), `.loc[mask, col] = v` (`Assign`), boolean selection and `drop` (`Filter`, `Select`). |
| `Spikes` (spikes.dfy) | `remove_spikes`: a specification on sequences, and in-place methods on an `array` that are proved equal to it. |
| `LoadOn` (load.dfy) | `load_on`: the same pattern. |
| `Onset` (onset.dfy) | Steps (b) and (c) of `cooking_event`. |
| `FlagCascade` (cascade.dfy) | Step (d), one masked assignment per source statement, in source order. |
| `Events` (events.dfy) | Steps (e) to (h) and the table `cooking_event` returns. |
| `Integrity` (integrity.dfy) | `timestamp_issue`: the two-stage flagging through dictionaries keyed by event number, and the drop. |
| `Summary` (summary.dfy) | `only_events`. |
| `Driver` (driver.dfy) | `period`, the script's constants and the driver. |
| `Scenarios` (scenarios.dfy) | Concrete tables carried through the model, and a small meal followed through the whole chain. |

The script's defaults (lines 16, 24, 31, 120 and 140), which the driver at
lines 180-185 uses, are the constants of the `Driver` module:
`MinSizeOfSpikes`, `Defaults` (the `cooking_event` and `timestamp_issue`
parameters), `CookingTimeLimit`, `PowerMeanMin` and `TariffPerKWh`.

Semantics the model fixes throughout:

- **Shifted neighbours.** A neighbour taken with `shift` that does not exist
  (before row 0, after the last row) is a missing value. Every comparison with
  it is false, except `!=`, which is true.
- **Order of assignments.** Each `.loc` assignment computes its mask from the
  columns as they stood before it. A later assignment overwrites an earlier
  one.
- **Time.** Timestamps are whole minutes (`int`), so the `pd.to_timedelta(t,
  unit='m')` comparisons become integer comparisons.

Three consequences of the code as written, which the model keeps:

- `remove_spikes` turns [10, 10, 3, 10.5, 11] into [3, 3, 3, 10.5, 11]. Each
  flagged reading takes its successor's energy, so the spike's predecessors
  are pulled down (Spikes.RemoveSpikesExample).
- The start and end flags come from exactly eleven masked assignments, at
  lines 53-92 (lines 91 and 92 are two of them).
- Disqualification (lines 113-115) removes only the event number.
  `cooking_time` and `seq_time` keep their values.

## Model

| member | source | states |
|---|---|---|
| Frame.EnergyThreshold | cooking_session.py:18 | definition: `min_active_load*power_capacity*time_resolution/60`, the energy step of lines 18, 54 and 57 |
| Frame.PowerThreshold | cooking_session.py:19 | definition: `min_active_load*power_capacity`, the power level of lines 19, 62 and 89 |
| Frame.RunningCount | cooking_session.py:43-45 | `cumsum` of a boolean column has one entry per row, and entry i is at most i + 1 |
| Frame.RunningCountIsPrefixCount | cooking_session.py:43-45 | entry i of the running count is the number of true flags among rows 0..i |
| Frame.RunningCountStep | cooking_session.py:95-97 | the running count starts at the first flag and rises by exactly one at each true flag |
| Frame.RunningCountMonotone | cooking_session.py:95-97 | the running count never decreases |
| Frame.RunningCountFlat | cooking_session.py:95-97 | the running count is constant over a stretch without a true flag |
| Frame.RunningCountEqualNoFlag | cooking_session.py:95-97 | equal counts at i and j mean there is no flag in i+1..j |
| Frame.GroupFirst | cooking_session.py:48-50 | `groupby(key).first()` mapped back onto row i is the first row with i's key: same key, none earlier |
| Frame.GroupLast | cooking_session.py:104-106 | `groupby(key).last()` mapped back onto row i is the last row with i's key: same key, none later |
| Frame.GroupFirstUnique | cooking_session.py:48-50 | any row with i's key that has no earlier row with that key is the group's first row |
| Frame.GroupLastUnique | cooking_session.py:104-106 | any row with i's key that has no later row with that key is the group's last row |
| Frame.RunningCountGroupFirst | cooking_session.py:100-102 | a row's event begins at the latest start flag at or before it |
| Frame.RunningCountGroupLast | cooking_session.py:104-106 | a row's event ends at the row before the next start flag, or at the last row |
| Frame.Assign | cooking_session.py:53-92 | `.loc[mask, col] = v`: masked rows take v and the others keep their value |
| Frame.Filter | cooking_session.py:159-161 | a drop by mask keeps exactly the rows that pass, and no more rows than the input |
| Frame.Select | cooking_session.py:124 | a selection by a boolean column keeps exactly the rows whose entry is true, one per true entry |
| Frame.CountTrue | cooking_session.py:124 | the number of true entries of a column, at most its length |
| Frame.SelectPositions | cooking_session.py:124 | a kept row i lands in the selection at position "number of kept rows above i" |
| Frame.SelectInOrder | cooking_session.py:124 | a kept row i lands before every later row j: the positions strictly increase |
| Frame.Mask | cooking_session.py:159-161 | the mask of a row test has one entry per row, and entry i is the test on row i |
| Frame.FilterIsSelect | cooking_session.py:159-161 | a drop by a row test is the selection by its mask, so it keeps order and positions too |
| Frame.FilterKeepsOrder | cooking_session.py:159-161 | dropping rows keeps the relative order of the rows that stay |
| Frame.FilterAll | cooking_session.py:176-177 | a drop that every row passes leaves the table unchanged |
| Frame.SelectAll | cooking_session.py:124 | a selection that keeps every row leaves the table unchanged |
| Spikes.IsSpike | cooking_session.py:26-27 | definition: the mask of line 26: the next reading exists, is of the same meter, and its energy plus the margin is below this one's |
| Spikes.PassRow | cooking_session.py:26-27 | definition: the assignment of line 27: a masked row takes the next reading's energy, any other row is unchanged |
| Spikes.SpikePass | cooking_session.py:26-27 | one vectorised pass keeps one row per row (what it changes is stated by Spikes.RepeatChangesOnlyEnergy and Spikes.PassIdentityIffNoSpikes) |
| Spikes.Repeat | cooking_session.py:25-27 | k passes keep one row per row |
| Spikes.RemoveSpikes | cooking_session.py:24-28 | the 100 passes keep one row per row (their effect is stated by the Spikes.Repeat lemmas below) |
| Spikes.SpikePassInPlace | cooking_session.py:26-27 | one in-place left-to-right sweep over the array equals one vectorised pass |
| Spikes.RemoveSpikesInPlace | cooking_session.py:24-28 | the 100 in-place passes leave the array equal to `RemoveSpikes` of its old contents |
| Spikes.RepeatChangesOnlyEnergy | cooking_session.py:26-27 | the filter deletes and reorders nothing, and changes only the energy column |
| Spikes.RepeatNeverRaises | cooking_session.py:26-27 | with a non-negative margin, no energy value is ever raised |
| Spikes.RepeatKeepsLastOfMeter | cooking_session.py:26-27 | the last reading of each meter, and of the table, is never changed |
| Spikes.SpikeStaysInMeter | cooking_session.py:27 | a reading that qualifies after any number of passes has a successor of its own meter |
| Spikes.RepeatTakesLaterEnergy | cooking_session.py:26-27 | every energy left by the filter is the original energy of the same reading or of a later reading of the same meter run |
| Spikes.PassIdentityIffNoSpikes | cooking_session.py:26-27 | a pass leaves the table unchanged if and only if no reading qualifies |
| Spikes.RepeatAtFixedPoint | cooking_session.py:25-27 | on a table with no qualifying reading, any number of passes changes nothing |
| Spikes.RepeatAdd | cooking_session.py:25 | a passes followed by b passes equal a + b passes |
| Spikes.RepeatSettles | cooking_session.py:25-27 | a reading d rows before the end of its meter run no longer qualifies, and no longer changes, after d passes |
| Spikes.RemoveSpikesConverges | cooking_session.py:24-28 | when no run of consecutive readings of one meter is longer than 101, the result has no qualifying reading, and running the filter again changes nothing |
| Spikes.RemoveSpikesExample | cooking_session.py:24-28 | [10, 10, 3, 10.5, 11] with margin 1 becomes [3, 3, 3, 10.5, 11] |
| LoadOn.LoadActive | cooking_session.py:17-20 | definition: the mask of lines 17-20: a predecessor of the same meter, and an energy delta above the energy step or a power above the power level |
| LoadOn.MarkRow | cooking_session.py:17-20 | definition: line 20's value on a masked row (the energy delta) and a missing value elsewhere |
| LoadOn.MarkLoad | cooking_session.py:16-21 | one output row per reading (its contract is LoadOn.MarkLoadSpec) |
| LoadOn.MarkLoadSpec | cooking_session.py:17-20 | a reading is marked if and only if it has a predecessor of the same meter and its energy delta or power strictly exceeds the threshold; the mark is the delta; the other columns stay |
| LoadOn.FirstOfMeterUnmarked | cooking_session.py:17-20 | the first reading of every meter, row 0 included, is never marked |
| LoadOn.MarkLoadInPlace | cooking_session.py:16-21 | writing the column into the array in place leaves it equal to `MarkLoad` of its old contents |
| Onset.Marked | cooking_session.py:43-44 | one entry per row; by definition entry i says row i carries a `load_on` mark |
| Onset.LoadOnCount | cooking_session.py:43-45 | one `load_on_count` per row (its values are stated by Frame.RunningCountIsPrefixCount) |
| Onset.TimeLoadOn | cooking_session.py:48-50 | one `time_load_on` per row (its values are stated by Onset.TimeLoadOnIsLatestOnset) |
| Onset.LatestOnset | cooking_session.py:42-50 | reference definition: the latest marked row at or before i, and that no such row exists when it is absent |
| Onset.TimeLoadOnIsLatestOnset | cooking_session.py:42-50 | `time_load_on` of a row is the timestamp of its latest marked row, or of row 0 before the first mark |
| FlagCascade.Cleared | cooking_session.py:39-40 | a fresh flag column is false on every row |
| FlagCascade.OnsetStart | cooking_session.py:53-55 | definition: more than `t_between` since the previous row's onset time and an energy rise of at least one step, or a new meter |
| FlagCascade.OnsetStartMask | cooking_session.py:53-55 | the mask of line 53, one entry per row |
| FlagCascade.QuickRise | cooking_session.py:57-59 | definition: an energy rise of at least one step less than `t_between` after the previous reading |
| FlagCascade.QuickRiseMask | cooking_session.py:57-59 | the mask of line 57, one entry per row |
| FlagCascade.PowerAfterQuiet | cooking_session.py:61-62 | definition: the onset time moved on by more than `t_between + time_resolution` and the power is at the threshold |
| FlagCascade.PowerAfterQuietMask | cooking_session.py:61-62 | the mask of line 61, one entry per row |
| FlagCascade.BeforeStart | cooking_session.py:64-65 | definition: the next row starts an event, or the meter changes after this row |
| FlagCascade.BeforeStartMask | cooking_session.py:64-65 | the mask of line 64, one entry per row |
| FlagCascade.BeforeLongGap | cooking_session.py:67-69 | definition: the next row of the same meter ends an event and comes more than `t_between` later |
| FlagCascade.BeforeLongGapMask | cooking_session.py:67-69 | the mask of line 67, one entry per row |
| FlagCascade.DoubleEnd | cooking_session.py:71-72 | definition: this row and the previous one both end an event |
| FlagCascade.DoubleEndMask | cooking_session.py:71-72 | the mask of line 71, one entry per row |
| FlagCascade.StartBeforeLongGap | cooking_session.py:74-78 | definition: two starts in a row, at most `t_between` apart, and the next row more than `t_between` later |
| FlagCascade.StartBeforeLongGapMask | cooking_session.py:74-78 | the mask of line 74, one entry per row |
| FlagCascade.EndBeforeShortGap | cooking_session.py:80-84 | definition: two ends in a row, more than `t_between` apart, and the next row at most `t_between` later |
| FlagCascade.EndBeforeShortGapMask | cooking_session.py:80-84 | the mask of line 80, one entry per row |
| FlagCascade.StartAfterPowered | cooking_session.py:86-89 | definition: two starts in a row, less than `t_between` apart, the previous reading at the power threshold |
| FlagCascade.StartAfterPoweredMask | cooking_session.py:86-89 | the mask of line 86, one entry per row |
| FlagCascade.NewMeterMask | cooking_session.py:91-92 | the mask of lines 91-92, one entry per row |
| FlagCascade.Cascade | cooking_session.py:52-92 | row 0 and every row whose meter differs from the previous row's start an event and do not end one; the last row ends an event unless its meter differs from the previous row's |
| Events.Lone | cooking_session.py:113-114 | definition: the event number differs from the previous and the next row's, a missing neighbour counting as different |
| Events.Disqualified | cooking_session.py:113-115 | definition: a lone row, not row 0, whose energy rose less than `min_cooking_event` since the previous row |
| Events.EventRow | cooking_session.py:99-115 | definition: one processed row: onset count and time, flags, event number (missing when disqualified), first and last timestamps, duration and offset |
| Events.Boundaries | cooking_session.py:52-92 | one start flag and one end flag per reading (their values are stated by FlagCascade.Cascade) |
| Events.EventIds | cooking_session.py:94-97 | one event number per reading (its values are stated by Events.IdsStep and Events.EventNumbering) |
| Events.EventTable | cooking_session.py:99-115 | one processed row per reading, carrying that reading unchanged (its other columns are stated by Events.TableSpanBounds and Events.TableDisqualifiedIff) |
| Events.BoundariesStartAtMeterChanges | cooking_session.py:91 | every row that begins a meter carries a start flag |
| Events.IdsStep | cooking_session.py:94-97 | event numbers start at 1 and rise by one at each start flag, and so at each meter change |
| Events.IdsMonotone | cooking_session.py:94-97 | event numbers are at least 1 and never decrease |
| Events.IdsWithinMeter | cooking_session.py:94-97 | two rows with one event number lie in one run of a single meter |
| Events.IdsRunSorted | cooking_session.py:94-97 | within one event, timestamps sorted per meter are sorted |
| Events.TableSpanBounds | cooking_session.py:99-110 | every row of an event gets the event's first and last timestamps, their difference as duration, and its own offset |
| Events.TableSeqTimeWithinEvent | cooking_session.py:108-110 | with per-meter sorted timestamps, 0 <= `seq_time` <= `cooking_time` |
| Events.TableDisqualifiedIff | cooking_session.py:112-115 | a row loses its number if and only if no other row shares it, it is not row 0, and its energy rose less than the minimum; otherwise the number is kept |
| Events.CookingEvent | cooking_session.py:31-118 | one output row per reading, in order, each carrying its reading unchanged |
| Events.EventNumbering | cooking_session.py:94-97 | on the real cascade: event 1 on row 0, a rise of one exactly at each start flag, and so at every meter change |
| Events.EventWithinMeter | cooking_session.py:94-97 | no event number of `cooking_event` spans a meter change |
| Events.EventBounds | cooking_session.py:99-110 | `time_start` and `time_end` are the timestamps of the event's start-flagged row and of the row before the next start flag; `cooking_time` and `seq_time` follow |
| Events.SeqTimeWithinEvent | cooking_session.py:108-110 | with per-meter sorted timestamps, every row has 0 <= `seq_time` <= `cooking_time` |
| Events.LoneEventDisqualified | cooking_session.py:112-115 | a row's number is taken away if and only if its event has no other row, it is not row 0, and its energy rose less than the minimum |
| Integrity.IsHead | cooking_session.py:124 | definition: `head(1)` keeps row i: it is numbered and no earlier row shares its (meter, event) |
| Integrity.IsTail | cooking_session.py:132 | definition: `tail(1)` keeps row i: it is numbered and no later row shares its (meter, event) |
| Integrity.HeadMask | cooking_session.py:124 | one entry per row; by definition entry i is Integrity.IsHead: a numbered row with no earlier row of its (meter, event) group |
| Integrity.TailMask | cooking_session.py:132 | one entry per row; by definition entry i is Integrity.IsTail: a numbered row with no later row of its (meter, event) group |
| Integrity.Heads | cooking_session.py:124 | `head(1)` per group keeps one row per first-of-group row, and only numbered rows of the table |
| Integrity.Tails | cooking_session.py:132 | `tail(1)` per group keeps one row per last-of-group row, and only numbered rows of the table |
| Integrity.HeadsInOrder | cooking_session.py:124 | the head table lists the first row of every group, in table order: first rows i < j appear at strictly increasing positions |
| Integrity.TailsInOrder | cooking_session.py:132 | the tail table lists the last row of every group, in table order: last rows i < j appear at strictly increasing positions |
| Integrity.Regressed | cooking_session.py:125-127 | definition: a numbered boundary row whose energy plus the margin is at most the energy of the boundary row above it, on the same meter; false on the first row |
| Integrity.ToDict | cooking_session.py:129 | definition: one entry per event number, a later row overwriting an earlier one (its contract is Integrity.ToDictLookup) |
| Integrity.StartDict | cooking_session.py:129 | definition: the dictionary of the start checks over the head table |
| Integrity.EndDict | cooking_session.py:136 | definition: the dictionary of the end checks over the tail table, which carry the start flags (its contract is Integrity.TwoStageFlag) |
| Integrity.LastWithEvent | cooking_session.py:129 | reference definition: the last row numbered k, with nothing numbered k after it, or no row numbered k |
| Integrity.ToDictLookup | cooking_session.py:129 | `set_index('cooking_event')[col].to_dict()` has a key k if and only if some row is numbered k, and its value comes from the last such row |
| Integrity.StartChecks | cooking_session.py:125-127 | one start check per head row |
| Integrity.EndChecks | cooking_session.py:133-135 | one end check per tail row; what the checks mean is stated by Integrity.TwoStageFlag |
| Integrity.Flagged | cooking_session.py:129-136 | definition: `.map(dict)` on the event number gives `True`: the row is numbered, its number is a key, and the entry is true |
| Integrity.EventFlagged | cooking_session.py:136-137 | definition: the final `timestamp_issue == True` of line 137's mask, the second dictionary mapped onto the row |
| Integrity.LastRegressed | cooking_session.py:125-136 | definition: the check made at the last row of a boundary table numbered k, false when no row is |
| Integrity.StartRegressed | cooking_session.py:124-129 | definition: event k's start check, made at the last head row numbered k |
| Integrity.EndRegressed | cooking_session.py:132-136 | definition: event k's end check, made at the last tail row numbered k |
| Integrity.TwoStageFlag | cooking_session.py:124-136 | after both dictionary stages, a row is flagged if and only if it has a number and the check at the last head or the last tail with that number failed |
| Integrity.HeadsCoveredByTails | cooking_session.py:124-132 | every event that has a first row also has a last row |
| Integrity.EventFlaggedIff | cooking_session.py:120-136 | a row's event is flagged if and only if it has a number and its start check or its end check failed |
| Integrity.UnflaggedMask | cooking_session.py:137 | one entry per row; by definition entry i says that row i's event is not flagged |
| Integrity.TimestampIssue | cooking_session.py:120-138 | the intended result: exactly the rows whose event is not flagged, one per such row |
| Integrity.TimestampIssueInOrder | cooking_session.py:137 | the surviving rows stay in table order: rows i < j that survive appear at strictly increasing positions |
| Integrity.TimestampIssueKeepsUnflagged | cooking_session.py:120-138 | a row survives if and only if it is unnumbered or both checks of its event pass |
| Integrity.DropByTimestampLabel | cooking_session.py:137 | line 137 as written: a row is kept if and only if it is a row of the input and no row of a flagged event has its timestamp |
| Integrity.LabelDropWithinIntended | cooking_session.py:137 | every row the drop as written keeps is kept by the intended filter, so the script can only lose rows relative to it |
| Integrity.DropByLabelLosesOtherMeter | cooking_session.py:137 | on a concrete table, a row of an unflagged event on another meter is kept by the intended filter but lost when dropping by label |
| Summary.AppearanceKeys | cooking_session.py:145 | the (meter, event) keys of numbered rows, each once |
| Summary.Insert | cooking_session.py:145 | inserting a new key keeps the keys strictly sorted |
| Summary.SortKeys | cooking_session.py:145 | sorts distinct keys into `groupby` order, strictly ascending, with the same members |
| Summary.GroupKeys | cooking_session.py:145 | the groups are exactly the keys of numbered rows, strictly ascending by meter then event |
| Summary.GroupMask | cooking_session.py:145 | one entry per row; by definition entry i says that row i belongs to the group |
| Summary.Group | cooking_session.py:145 | a group holds exactly the rows with its meter and event number, one per such row, so `no_recordings` is their count |
| Summary.GroupInOrder | cooking_session.py:145 | a group lists its rows in table order: rows i < j of the group appear at strictly increasing positions |
| Summary.GroupNonEmpty | cooking_session.py:145 | every group of the table has at least one row |
| Summary.MaxEnergy | cooking_session.py:145 | `'energy': 'max'` bounds every energy of the group and is attained |
| Summary.MinEnergy | cooking_session.py:145 | `'energy_gen': 'min'` is below every energy of the group and is attained |
| Summary.MaxCookingTime | cooking_session.py:146 | `'cooking_time': 'max'` bounds every duration of the group and is attained |
| Summary.MinTimestamp | cooking_session.py:146 | `'timestamp': 'min'` is at or before every timestamp of the group and is attained |
| Summary.LessThan | cooking_session.py:159 | definition: floating-point `<` against a quotient: false for not-a-number and +infinity, true for -infinity |
| Summary.Divide | cooking_session.py:156 | floating-point division: finite if and only if the divisor is non-zero, the quotient times the divisor is the dividend, 0/0 is not a number, and a positive number over zero is +infinity |
| Summary.Summarise | cooking_session.py:145-156 | a group's row: its key, its reading count, its highest energy, an energy used equal to highest minus lowest (and non-negative), its longest duration, its earliest timestamp, and its mean power |
| Summary.PowerMean | cooking_session.py:156 | definition: the energy used divided by the cooking time in hours, with the floating-point outcome of a zero divisor |
| Summary.PowerMeanSpec | cooking_session.py:156 | the mean power times the minutes of cooking is 60 times the energy used; a zero-minute event with energy is infinite, and one without energy is not a number |
| Summary.StatsOf | cooking_session.py:145-156 | the aggregated row of group k carries key k |
| Summary.Aggregates | cooking_session.py:145-156 | one aggregated row per group, none with negative energy used |
| Summary.Cost | cooking_session.py:164 | definition: the energy used times the tariff per kWh |
| Summary.EventCountsAllOne | cooking_session.py:166-168 | `event_count` is 1 on every row |
| Summary.PricedSound | cooking_session.py:158-168 | every priced row comes from the aggregated table, has mean power not below the minimum, duration at most the maximum and non-zero energy, costs its energy at the tariff, and has count 1 |
| Summary.PricedUsesEnergy | cooking_session.py:161 | when no aggregated row has negative energy, every priced row used some energy |
| Summary.PricedComplete | cooking_session.py:158-161 | an aggregated row reaches the priced table if and only if it passes the filters |
| Summary.PricedKeepsOrder | cooking_session.py:158-161 | the filters keep the key order of the aggregated table |
| Summary.OnlyEventsSound | cooking_session.py:140-172 | every event `only_events` reports used positive energy, passed the power and duration filters, costs its energy at the tariff, and has count 1 |
| Summary.OnlyEventsSorted | cooking_session.py:145 | the reported events are strictly ascending by (meter, event) |
| Summary.OnlyEventsSpec | cooking_session.py:140-172 | a key is reported if and only if it is a group of the table whose aggregates pass the filters, and a reported row carries exactly that group's aggregates |
| Summary.AggregatesFromGroups | cooking_session.py:145-156 | every aggregated row is the aggregate of a group of the table, under that group's key |
| Summary.AggregatesCoverGroups | cooking_session.py:145-156 | every group of the table has its aggregate in the aggregated table |
| Summary.OnlyEventsFromGroup | cooking_session.py:140-172 | every reported row is the aggregate of a group of the table |
| Summary.OnlyEventsReachesGroup | cooking_session.py:158-172 | a group's aggregate is reported if and only if it passes the filters |
| Summary.Keep | cooking_session.py:158-161 | definition: the mean power is not below the minimum, the duration is at most the maximum, and the energy used is not zero |
| Summary.EventCounts | cooking_session.py:166-168 | one `event_count` per row (its values are stated by Summary.EventCountsAllOne) |
| Summary.Priced | cooking_session.py:158-168 | definition: the filters, then cost and count (its contract is Summary.PricedSound, Summary.PricedComplete, Summary.PricedKeepsOrder) |
| Summary.OnlyEvents | cooking_session.py:140-172 | definition: the priced aggregated table (its contract is Summary.OnlyEventsSpec, Summary.OnlyEventsSound, Summary.OnlyEventsSorted) |
| Driver.Period | cooking_session.py:174-178 | a row is kept if and only if its timestamp lies in [start, end) |
| Driver.PeriodKeepsOrder | cooking_session.py:174-178 | `period` keeps the order of the rows it keeps |
| Driver.WindowSound | cooking_session.py:174-178 | `period` keeps a sorted table of reportable sessions sorted and reportable, inside the window |
| Driver.Cleaned | cooking_session.py:180-181 | the cleaned table has one reading per raw reading |
| Driver.Sessions | cooking_session.py:180-185 | definition: the script's chain of steps, with the intended filter in place of line 137's label drop (its contract is Driver.SessionsSound and Driver.Run) |
| Driver.Run | cooking_session.py:180-185 | the driver rewrites the raw array into its cleaned contents and returns the sessions (as `Driver.Sessions` defines them) of the old contents in the window |
| Driver.SessionsSound | cooking_session.py:180-185 | every session of the chain with the intended filter lies in the window, used energy, lasted at most 175 minutes, has a mean power not below 0.1 kW, costs 100 per kWh, and is counted 1; the sessions ascend by (meter, event) |
| Scenarios.MealCleaned | cooking_session.py:180-181 | the meal's readings have no spike, and the two rising readings are marked with their rise |
| Scenarios.MealOnsets | cooking_session.py:42-50 | the meal's onset times are [0, 5, 10, 10] |
| Scenarios.MealFlags | cooking_session.py:52-92 | in the meal only the first reading starts an event and only the last ends one |
| Scenarios.MealEventIds | cooking_session.py:94-97 | the meal is event 1 throughout |
| Scenarios.MealEventTable | cooking_session.py:31-118 | the meal's processed table: one event from minute 0 to minute 15 |
| Scenarios.MealPassesTimestampCheck | cooking_session.py:120-138 | a single event has no predecessor to regress against and survives the check |
| Scenarios.MealAggregates | cooking_session.py:145-156 | the meal aggregates to 0.4 kWh in 15 minutes over 4 readings, 1.6 kW on average |
| Scenarios.MealPriced | cooking_session.py:140-172 | the meal is reported, costing 40 and counted 1 |
| Scenarios.OneMealSession | cooking_session.py:180-185 | the whole chain on the meal in the first hour gives exactly one session |
| Scenarios.TwoDistantReadings | cooking_session.py:64-115 | two idle readings 20 minutes apart form events 1 and 2; the second is lone, rose by nothing, and loses its number, while the first, on row 0, keeps it |

## Left out

- Reading `dataframe_raw.csv` (line 14) is file I/O. The model starts from a sequence of readings.
- Timestamp parsing and the conversions at lines 34-36 and 176-177 are left out. Timestamps are whole minutes, and `period`'s window bounds are given as minutes rather than date strings.
- Floating-point rounding is not modelled. Energies, powers and thresholds are exact reals. Division by zero keeps its floating-point outcome (an infinity or not-a-number) through the `Quotient` datatype.
- The `'power': 'mean'`, `'current': 'mean'` and `'id': 'mean'` aggregates (lines 145-147) are left out. The model's readings have no current or id column, and no later step reads those means.
- Summary.Summarise: `no_recordings` is the group size. Counting voltages (line 147) excludes missing voltages, and the model assumes none are missing.
- The index labels, set at lines 116 and 171 and reset at lines 142 and 170, are not modelled as a separate column. `timestamp` is the key wherever a label is used.
- LoadOn.MarkLoadSpec: assumes `load_on` does not exist before `load_on` runs, as in the script's driver. Unmarked rows get a missing value rather than an older value of the column.
- Spikes.RemoveSpikesConverges: proves convergence only for runs of at most 101 consecutive readings of one meter. The script's fixed 100 passes do not settle longer runs in general.
- Events.SeqTimeWithinEvent: assumes the readings of each meter are in time order, as in the script's input file.
- Integrity.StartRegressed: reads the start check at the last head row with a given number. Every number belongs to a single group (Events.EventWithinMeter), so this is the group's only head row.
- `groupby(...).head(1)` and `.tail(1)` skip rows without an event number. This is a choice of the model, not a proved property of pandas. Such rows are never flagged, so they are kept.
- Driver.Sessions: chains the intended filter (Integrity.TimestampIssue), not the drop by timestamp label of line 137 (Integrity.DropByTimestampLabel, see "## Findings"). When another meter has a reading at the timestamp of a flagged event's row, the script loses that reading, and can lose or shorten its session; Sessions keeps it.
- Driver.Run: returns the sessions of the chain with the intended filter, for the reason given for Driver.Sessions.
- Driver.SessionsSound: its properties are proved of the chain with the intended filter. For the script as written they are not proved; Integrity.LabelDropWithinIntended shows only that the label drop keeps a subset of the rows the intended filter keeps.
- The commented-out meter selection (line 187) is not part of this model.

## Findings

| source | as written | input that shows it | evidently intended | confidence | as-written member | corrected member |
|---|---|---|---|---|---|---|
| cooking_session.py:137 | The flagged rows are dropped by their index label, which is the timestamp. This removes every row read at the same instant, on any meter. | Given directly to `timestamp_issue`: meter 1 has event 1 (minute 0, 5.0 kWh) and event 2 (minute 10, 1.0 kWh); meter 2 has event 3 (minute 10, 0.0 kWh). Event 2 regressed and is flagged. Meter 2's row shares minute 10 and is dropped although its event passed both checks. `cooking_event` would not produce this table itself (lines 113-115 take the numbers of such lone rows away); in a table it produces, two-row events whose first rows regress work the same way. | Drop exactly the rows of flagged events. | not executed | Integrity.DropByLabelLosesOtherMeter | Integrity.TimestampIssueKeepsUnflagged |
