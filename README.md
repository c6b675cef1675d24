# NBA shot chart statistics, modelled in Dafny

This project models the statistics pipeline of the shot-chart builder
`create_shot_chart` in `nba_shot_charts.py`. The pipeline has three stages.

1. **Zone aggregation.** A season's shots are grouped by their zone pair
   (SHOT_ZONE_BASIC, SHOT_ZONE_AREA). Each group gets FGA (the sum of the
   attempted flag), FGM (the sum of the made flag) and FG_PCT (the mean of the
   made flag). This is done once over the whole season, giving the league
   table, and once over the rows of one player or team, giving the target
   table.
2. **Differential joins.** The target table is left-joined to the league
   table, and DIFF = target FG_PCT − league FG_PCT for each zone. That
   per-zone table is then left-joined back onto every target shot.
3. **Cell table.** The hexbin step gives each occupied cell a centre, a
   frequency and a mean DIFF. From these the model builds the cell table:
   the frequency's percentile rank (pandas `rank(pct=True)`: ties get their
   average rank, divided by the cell count) and the marker size (2, 40, 100
   or 200) that this percentile selects.

Modules, one per stage:

- `Shots` (`shots.dfy`): shot records, the zone filter and the subject filter.
- `ZoneStats` (`zone_stats.dfy`): the group-by aggregate.
- `Differential` (`differential.dfy`): the two left joins.
- `CellTable` (`cell_table.dfy`): the coordinate loop, the percentile rank and the sizing.
- `Wrappers` (`wrappers.dfy`): `Option`, used for the cells a left join leaves empty.

Modelling choices:

- Rates are exact `real`s and flags are unbounded `int`s. Lemmas that need
  0/1 flags or non-negative flags say so in their `requires`.
- A zone table is a `map` from zone pair to row. This matches the join
  semantics, where zone keys are unique after the group-by.
- Conservation is stated over any duplicate-free list of the table's keys.
- The loop that fills `x` and `y` is an imperative method
  (`ExtractCoordinates`). The column-by-column DataFrame build is one
  method, `BuildCellTable`, that calls it.

## Model

Some definitions carry no contract of their own and have no row. Their
properties are the lemmas about them:
- `Differential.TargetTable` is the joined zone table after
  nba_shot_charts.py:155-166, and `Differential.TargetShots` is the enriched
  target shots after line 172. They are described by `TargetTableZones`,
  `JoinAlwaysFindsLeague`, `TargetShotsKeepRows`, `TargetShotsCarryZoneDiff`
  and `NoMatchingShots`.
- `CellTable.AverageRank` and `CellTable.PercentileRank` define
  `rank(pct=True)` at line 207. They are described by
  `PercentileInUnitInterval`, `PercentileOrder`, `PercentileOfMaximum`,
  `TiedMaximumExample` and `AverageRanksSum`.

| member | source | states |
|---|---|---|
| Shots.InZone | nba_shot_charts.py:148 | a zone's group holds only input rows with that zone pair, and is no longer than the input |
| Shots.InZoneKeeps | nba_shot_charts.py:148 | every input row with the zone pair is in that zone's group |
| Shots.InZoneCounts | nba_shot_charts.py:148 | a zone's group holds each row with that zone pair exactly as often as the input does, and no row of another pair, so identical records are not merged |
| Shots.InZoneNonEmpty | nba_shot_charts.py:148-151 | every zone pair that occurs has a non-empty group, so its mean is defined |
| Shots.OfSubject | nba_shot_charts.py:155 | the target subset holds only season rows whose subject column equals the name |
| Shots.OfSubjectAppend | nba_shot_charts.py:155 | the subject filter keeps the original order (it distributes over concatenation) |
| Shots.OfSubjectCounts | nba_shot_charts.py:155 | each matching row appears in the subset as often as in the season, and each non-matching row not at all |
| Shots.SubjectZoneTotalBounded | nba_shot_charts.py:155-159 | for a non-negative weight, a zone's sum over the target rows is between 0 and that zone's sum over the season |
| ZoneStats.Summarize | nba_shot_charts.py:149-151 | one group's FGA and FGM are the sums of the attempted and made flags over its rows, and its FG_PCT is their mean: FG_PCT times the group size is FGM |
| ZoneStats.Aggregate | nba_shot_charts.py:148-151 | the table has a row for a zone pair exactly when some input shot has that pair |
| ZoneStats.ZoneTotalsConserve | nba_shot_charts.py:148-151 | summing per-zone sums over a duplicate-free zone list that covers every row gives the sum over all rows |
| ZoneStats.AggregateConservesCounts | nba_shot_charts.py:148-151 | FGA (FGM) summed over the table, each zone once, equals the attempted (made) total of the input: no shot is lost or counted twice |
| ZoneStats.ZonePctInUnitInterval | nba_shot_charts.py:149-151 | with 0/1 flags a group's FG_PCT is in [0, 1], and its FGA and FGM are between 0 and the group size |
| ZoneStats.ZonePctIsFgmOverFga | nba_shot_charts.py:149-151 | when every row of a group was attempted, its FGA equals its row count and its FG_PCT equals FGM / FGA |
| ZoneStats.ZoneTableRates | nba_shot_charts.py:148-151 | the zone of any input row is in the table; with 0/1 flags its FG_PCT is in [0, 1]; when every row was attempted its FGA is positive and its FG_PCT is FGM / FGA |
| ZoneStats.ZonePctIsNotFgmOverFga | nba_shot_charts.py:149-151 | FG_PCT is a mean over rows, not FGM / FGA: a zone with one row not attempted has FG_PCT 0.5 while FGM / FGA is 1 |
| Differential.ZoneDifferentials | nba_shot_charts.py:163-166 | the left join keeps exactly the target zones; DIFF and the league columns are present exactly when the league has the zone, and then DIFF is target FG_PCT minus league FG_PCT |
| Differential.JoinToShots | nba_shot_charts.py:169-172 | the per-shot left join gives one row per shot, in order, each carrying its own zone's row when the table has one |
| Differential.SubjectRowIsTargetRow | nba_shot_charts.py:155 | every season row of the subject is in the target subset |
| Differential.TargetZoneIsLeagueZone | nba_shot_charts.py:155-159 | every zone pair among the target rows is a zone pair of the season |
| Differential.TargetZonesInLeague | nba_shot_charts.py:155-164 | the zone of any shot of the subject is in both the target and the league table, and with non-negative flags target FGA and FGM never exceed the league's there |
| Differential.TargetTableZones | nba_shot_charts.py:156-166 | the joined table has a row for a zone exactly when the subject shot from it, so zones never shot from have no row |
| Differential.JoinAlwaysFindsLeague | nba_shot_charts.py:163-166 | the zone of any shot of the subject has a joined row with its league entry, and its DIFF is present and equals target FG_PCT minus league FG_PCT |
| Differential.TargetShotsKeepRows | nba_shot_charts.py:169-172 | the enriched shots are exactly the target rows, in order, one per row |
| Differential.TargetShotsCarryZoneDiff | nba_shot_charts.py:169-172 | every enriched shot carries a present DIFF, equal to its own zone's target FG_PCT minus league FG_PCT |
| Differential.NoMatchingShots | nba_shot_charts.py:155-172 | when no row matches the subject, the target subset, the target table, the joined table and the enriched shots are all empty |
| Differential.DiffExample | nba_shot_charts.py:166 | a target FG_PCT of 0.50 against a league FG_PCT of 0.45 gives DIFF exactly 0.05 |
| CellTable.XCoordinates | nba_shot_charts.py:199 | the x list has one entry per offset, and entry k is the first component of offset k |
| CellTable.YCoordinates | nba_shot_charts.py:200 | the y list has one entry per offset, and entry k is the second component of offset k |
| CellTable.ExtractCoordinates | nba_shot_charts.py:195-200 | x and y stay unset when there is no cell; otherwise they hold every offset's first and second components, in order |
| CellTable.BuildCellTable | nba_shot_charts.py:191-212 | one row per cell with its centre, frequency, DIFF, percentile rank and sizing; every percentile is in (0, 1]; a strictly larger frequency gets a strictly larger percentile |
| CellTable.Sizing | nba_shot_charts.py:208-212 | a marker size is always one of 2, 40, 100 and 200 |
| CellTable.SizingTiers | nba_shot_charts.py:208-212 | size 2 exactly for pct <= 0.4, 40 exactly for 0.4 < pct <= 0.75, 100 exactly for 0.75 < pct <= 0.90, 200 above 0.90 |
| CellTable.SizingMonotone | nba_shot_charts.py:208-212 | a larger percentile never gets a smaller marker |
| CellTable.PercentileInUnitInterval | nba_shot_charts.py:207 | every cell's percentile lies in (0, 1] |
| CellTable.PercentileOrder | nba_shot_charts.py:207 | equal frequencies get equal percentiles; a strictly larger frequency gets a strictly larger percentile |
| CellTable.PercentileOfMaximum | nba_shot_charts.py:207 | the top frequency, shared by t of n cells, gets 1 − (t − 1)/(2n): exactly 1.0 when it is unique, below 1.0 when tied |
| CellTable.TiedMaximumExample | nba_shot_charts.py:207 | two cells tied at the top frequency both get 0.75 |
| CellTable.AverageRanksSum | nba_shot_charts.py:207 | averaging ties keeps the rank total: the average ranks of n values sum to n(n+1)/2 |

## Left out

- `season_shot_chart` (the download through `nba_api` and the CSV write): network and file I/O.
- `draw_court`: fixed court geometry drawn with matplotlib, rendering only.
- The two `plt.hexbin` calls (nba_shot_charts.py:175-189): the hexagon geometry is inside matplotlib, so its outputs (cell offsets, per-cell frequency, per-cell mean DIFF) are inputs to `CellTable.BuildCellTable`. Because of this, the model does not prove that cell frequencies sum to the target's attempts.
- CellTable.BuildCellTable: requires the three hexbin outputs to have equal length. matplotlib returns them aligned, one entry per occupied cell. The pandas length-mismatch error is therefore not modelled.
- The scatter plot, the colour clamp to [-0.10, 0.10], axes, text and `plt.show`: rendering side effects.
- The `__main__` block and the module-level configuration constants: CSV reading and global configuration.
- Floating point: rates, DIFF and percentiles are exact reals. IEEE rounding near the 0.4 / 0.75 / 0.90 thresholds is not modelled. NaN handling is not modelled either, such as `groupby` dropping NaN zone keys or `rank` skipping NaN frequencies.
- Row order of the zone tables: pandas sorts the group-by output by key. The model keeps the tables as maps, because they are only read through the joins, and the joins do not depend on row order.
- Logging calls (`LOGGER.info`): no effect on the data.
