# sc2creativity replay summaries, in Dafny

A model of the core of sc2creativity. That core turns StarCraft II replays
into per-player summaries of what each player built early in the game, and
turns those summaries into a feature table.

For each seat of a 1v1 replay:
- **Filter.** The player's event stream is reduced to build events. A command
  event that carries an ability named `Train...`, `Build...`, `Morph...`,
  `Upgrade...` or `Research...` yields the name with the prefix stripped.
  `CreepTumor` and `ToOverseer` are dropped.
- **Aggregate.** The build events are grouped by name. A name opens an entry
  only when it is first seen inside the initial window: 450 s in
  `features/summaries.py`, 600 s in `run.py`.
- **Roll up.** Each entry becomes its first time and a decayed weight
  `sum(0.5 ** ((t - start) / 120))`. The rollups are sorted by name.

`features/summaries.py` builds and does the following:
- validates races;
- numbers the two seats `"{base}_{seat}"`;
- merges a new batch into the list already written, skipping ids it already
  holds.

`features/replay_dataframes.py` lays out the table:
- ten fixed columns;
- a start column and a weight column per action name, in sorted order;
- one row per summary, in which an action's first time `t` becomes the start
  score `3600 / (t or 0.1)`.

Modules:
- `Types` and `Models` hold the records of types.py and models.py.
- `Replays` holds the parser's output, given as plain values.
- `BuildEvents` is the filter. It is shared by both pipelines, whose code for
  it is the same.
- `Aggregation` is the aggregator and the rollup. It is shared, with the
  window as a parameter.
- `Summaries` covers summaries.py.
- `Run` covers run.py.
- `FindReplay` covers the id split of models/find_replay.py.
- `Dataframes` covers replay_dataframes.py.
- `Pipeline` states how the two stages fit together.
- `Strings` holds the few `str` operations used: `startswith`, `endswith`,
  ordering, `lower`, `str(n)`, `int(s)` and `split`.

What the code does as it runs is written imperatively, and each method is
proved against a function:
- the aggregation loop;
- the rollup loop;
- the seat loop;
- the in-place merge of `write_race`, on a class;
- `_add_column`, on a class with its column list and index;
- the row passes of `build_dataframe`.

The weight term `0.5 ** (d / 120.0)` is irrational. It is a parameter
`decay: int -> real`. `Aggregation.ValidDecay` states what the proofs use
about it:
- `decay(0) == 1`;
- `0 < decay(d) <= 1` for `d >= 0`;
- the half-life law `decay(d + 120) == decay(d) / 2`.

## Model

| member | source | states |
|---|---|---|
| BuildEvents.PrefixesExclusive | sc2creativity/features/summaries.py:198 | no name starts with two of the five prefixes, so at most one prefix ever matches |
| BuildEvents.EventYieldsAtMostOne | sc2creativity/features/summaries.py:193-206 | an event yields at most one build event; it yields one exactly when it is a command with an ability, a non-empty name, a matching prefix and a non-banned remainder; what it yields is that name with the prefix stripped and the event's second |
| BuildEvents.FilterKeepsOrder | sc2creativity/features/summaries.py:192-206 | output element k was produced by the event at index `Origins[k]`; those indices strictly increase, so stream order is kept; every qualifying event is among them, so nothing is lost (run.py:73-87 is the same filter) |
| BuildEvents.NoBannedNames | sc2creativity/features/summaries.py:199-202 | no build event is named `CreepTumor` or `ToOverseer` |
| BuildEvents.CreepTumorNeverYields | sc2creativity/features/summaries.py:19-22 | a creep tumour command yields nothing, whichever prefix it carries |
| Aggregation.Accumulate | sc2creativity/features/summaries.py:140-149 | every entry of the dictionary is keyed by its own name, holds at least one time, and its first time lies inside the window |
| Aggregation.KeyOrderIsKeys | sc2creativity/features/summaries.py:153 | the insertion order that `actions.values()` visits lists every key exactly once |
| Aggregation.AccumulateAdmits | sc2creativity/features/summaries.py:142-147 | a name has an entry iff some occurrence of it has `second <= cutoff`; the bound is inclusive |
| Aggregation.AccumulateTimes | sc2creativity/features/summaries.py:143-149 | an admitted name's times are those of its first in-window occurrence and of every later occurrence, in stream order, including those past the window |
| Aggregation.OrderedStreamKeepsAll | sc2creativity/features/summaries.py:143-149 | for a stream in time order, an admitted name's times are all of its occurrences |
| Aggregation.Aggregate | sc2creativity/features/summaries.py:140-149 | the loop's dictionary is `Accumulate` of the events, and its key order is `KeyOrder` |
| Aggregation.InsertTime | sc2creativity/features/summaries.py:154 | inserting adds exactly the one time to the multiset |
| Aggregation.SortTimes | sc2creativity/features/summaries.py:154 | `sorted(times)` is a permutation of the times, of the same length |
| Aggregation.SortTimesSorted | sc2creativity/features/summaries.py:154 | `sorted(times)` is non-decreasing |
| Aggregation.WeightSumBounds | sc2creativity/features/summaries.py:160-163 | with no time before the start, the weight lies between 0 and the number of times, and it is at least 1 when the first time is the start |
| Aggregation.RollupFacts | sc2creativity/features/summaries.py:154-163 | a rollup keeps its action's name; its first time is one of the times and no greater than any of them; `1 <= event_weight <= len(times)` |
| Aggregation.InsertByName | sc2creativity/features/summaries.py:164 | inserting adds exactly the one rollup to the multiset |
| Aggregation.InsertByNameSorted | sc2creativity/features/summaries.py:164 | inserting into a name-sorted list keeps it sorted |
| Aggregation.SortByName | sc2creativity/features/summaries.py:164 | the sort by name is a permutation of the rollups, of the same length |
| Aggregation.SortByNameSorted | sc2creativity/features/summaries.py:164 | after the sort the names are ascending |
| Aggregation.SortByNameStrict | sc2creativity/features/summaries.py:164 | with distinct names the sorted names are strictly ascending |
| Aggregation.RollupEntries | sc2creativity/features/summaries.py:152-163 | the rollup loop gives one rollup per key, in key order, each the rollup of that key's entry |
| Aggregation.SortedRollups | sc2creativity/features/summaries.py:152-164 | sorting the key-order rollups gives the rollup list of the dictionary: strictly ascending names, each the rollup of its entry, every entry present |
| Aggregation.SummarizeActions | sc2creativity/features/summaries.py:140-164 | aggregation, rollup and sort together yield the rollup list of `Accumulate(events, cutoff)` |
| Aggregation.RollupsUnique | sc2creativity/features/summaries.py:152-164 | the rollup list of a dictionary is unique, so the result is determined by the events |
| Aggregation.RollupsOfFacts | sc2creativity/features/summaries.py:152-164 | a rollup list names exactly the names with an in-window occurrence; each rollup has the least time of its entry and a weight between 1 and its number of times |
| Aggregation.MarineScenario | sc2creativity/features/summaries.py:140-163 | three Marines at 10, 10 and 130 s give the entry `[10, 10, 130]` and the rollup (Marine, 10, 2.5) |
| Aggregation.WindowBoundary | sc2creativity/features/summaries.py:143 | a first Pylon at 450 s opens an entry; one at 451 s or 500 s does not |
| Aggregation.LateThenEarly | sc2creativity/features/summaries.py:142-149 | a Pylon at 500 s and then one at 20 s give the entry `[20]` only |
| Summaries.GetRace | sc2creativity/features/summaries.py:183-189 | Some iff the reported race equals terran, protoss or zerg up to the case of ASCII letters, compared character by character; the value is the lower-cased race |
| Summaries.GetRaceIgnoresCase | sc2creativity/features/summaries.py:184 | two spellings that lower alike are judged alike |
| Summaries.GetRaceIdempotent | sc2creativity/features/summaries.py:184-189 | a validated race validates again as itself |
| Summaries.GetRaceExamples | sc2creativity/features/summaries.py:183-189 | "Terran" gives terran, "ZERG" gives zerg, "Random" is refused |
| Summaries.SummarizeReplay | sc2creativity/features/summaries.py:134-180 | None iff either player's race is invalid; otherwise the summary of the seat: the id, start, duration, names, lower-cased races, and the rollup list of the seat's build events with the 450 s window |
| Summaries.SummaryUnique | sc2creativity/features/summaries.py:134-180 | a seat's summary is determined by the replay, the seat and the id |
| Summaries.SummaryFacts | sc2creativity/features/summaries.py:134-180 | a summary's races are valid and lower-case; its rollups are exactly the names built in the first 450 s; each has its least time and a weight between 1 and its count |
| Summaries.SeatId | sc2creativity/features/summaries.py:114-116 | the id is the base id, then `_`, then decimal digits |
| Summaries.SeatIdsDistinct | sc2creativity/features/summaries.py:113-116 | the two seats get different ids |
| Summaries.SummariesForReplay | sc2creativity/features/summaries.py:107-119 | built on the corrected `SummarizeReplay` (see Findings: as written the seat call raises TypeError whenever both races are valid): non-1v1 gives `[]`; a 1v1 with an invalid race gives `[]`; otherwise exactly two summaries, seat 0 then seat 1, with ids `base_0` and `base_1` |
| Summaries.DeclaredFieldsAccepted | sc2creativity/types.py:21-23 | the declared fields are accepted, and `winner=` is refused |
| Summaries.SummarizeReplayAsWritten | sc2creativity/features/summaries.py:165-175 | as written (`winner=` passed to ReplayPlayer) the call raises TypeError whenever both races are valid, and returns None otherwise |
| Summaries.UnseenMembers | sc2creativity/features/summaries.py:63-66 | the batch filter keeps exactly the summaries whose id was not already written |
| Summaries.UnseenAppend | sc2creativity/features/summaries.py:64-66 | the filter distributes over concatenation, so the batch's order is kept |
| Summaries.UnseenAll | sc2creativity/features/summaries.py:64-66 | when no id is ignored the whole batch is kept, repeats included |
| Summaries.UnseenNone | sc2creativity/features/summaries.py:64-66 | when every id is ignored nothing is kept |
| Summaries.MergedFacts | sc2creativity/features/summaries.py:58-66 | the merge keeps the old list as a prefix; its members are the old ones plus the new ones with unseen ids; its ids are the union |
| Summaries.MergedIdempotent | sc2creativity/features/summaries.py:58-66 | merging the same batch a second time changes nothing |
| Summaries.MergedFreshBatch | sc2creativity/features/summaries.py:63-66 | a batch of fresh ids is appended whole, duplicates within it included (the id set is computed once) |
| Summaries.MergedUniqueIds | sc2creativity/features/summaries.py:58-66 | if both lists have unique ids, so does the merge |
| Summaries.SummaryList.Append | sc2creativity/features/summaries.py:66 | `append` adds one summary at the end |
| Summaries.WriteRace | sc2creativity/features/summaries.py:56-66 | with no old list the batch itself, untouched; otherwise the old list object, extended in place to the old list followed by the unseen new summaries |
| Run.SummarizeReplay | sc2creativity/run.py:39-70 | the races are exactly as the parser reports them (not validated, not lower-cased); the rollup list is that of the seat's build events with the 600 s window |
| Run.HandleReplay | sc2creativity/run.py:30-36 | non-1v1 gives nothing; a 1v1 gives one summary per seat, whatever the races |
| Run.LegacySummaryFacts | sc2creativity/run.py:43-65 | one rollup per name built in the first 600 s, each with its least time and a weight between 1 and its count |
| Run.WindowsDiffer | sc2creativity/run.py:46 | a first Pylon at 500 s is admitted at 600 but not at 450; 600 is in, 601 is out |
| FindReplay.ParseReplayId | sc2creativity/models/find_replay.py:23-24 | a parsed id is a base without `_`, then `_`, then digits whose value is the seat |
| FindReplay.ParseSeatId | sc2creativity/models/find_replay.py:23-24 | for a base id without `_`, splitting `base_seat` gives back the base and the seat |
| FindReplay.UnderscoreInBaseFails | sc2creativity/models/find_replay.py:23 | a base id holding `_` splits into more than two parts, and the lookup fails |
| Strings.SortedStrings | sc2creativity/features/replay_dataframes.py:66 | `sorted` of a set holds exactly its members, strictly ascending |
| Strings.SplitThenJoin | sc2creativity/models/find_replay.py:23 | joining the parts of a split gives the string back, and no part holds the separator |
| Dataframes.StartScore | sc2creativity/features/replay_dataframes.py:98 | for `x != 0` the score times `x` is 3600; for `x == 0` (falsy) it is 36000 |
| Dataframes.StartScoreFacts | sc2creativity/features/replay_dataframes.py:97-98 | an action never built scores exactly 1; scores are positive; an earlier start scores at least as high |
| Dataframes.ActionNamesMembership | sc2creativity/features/replay_dataframes.py:40-44 | a name is in `all_action_names` iff some action of some summary carries it |
| Dataframes.AllActionNames | sc2creativity/features/replay_dataframes.py:39-44 | the loop computes that union, and `my_race` is the last summary's own race (None for no summaries) |
| Dataframes.ColumnTable.AddColumn | sc2creativity/features/replay_dataframes.py:51-53 | the name is appended, its index entry points at the new last position, and the index still records each column's last position |
| Dataframes.IndexOfDistinct | sc2creativity/features/replay_dataframes.py:51-53 | with distinct column names, `action_name_index[columns[i]] == i` |
| Dataframes.RaceColumnsFixed | sc2creativity/features/replay_dataframes.py:55-64 | the ten fixed columns, with the self and opponent flag columns in the order protoss, zerg, terran |
| Dataframes.AddFixedColumns | sc2creativity/features/replay_dataframes.py:55-64 | the first ten `_add_column` calls give exactly the fixed columns |
| Dataframes.AddActionColumns | sc2creativity/features/replay_dataframes.py:66-68 | the name loop appends a start and then a weight column per name, in order |
| Dataframes.BuildColumns | sc2creativity/features/replay_dataframes.py:47-68 | the columns are the fixed ten and then the action columns of `sorted(all_action_names)` |
| Dataframes.LayoutShape | sc2creativity/features/replay_dataframes.py:55-68 | there are `10 + 2k` columns: the fixed ten, then `X_start` at `10 + 2i` and `X_weight` at `11 + 2i` |
| Dataframes.LayoutDistinct | sc2creativity/features/replay_dataframes.py:55-68 | with no action called `game`, all column names are distinct |
| Dataframes.StartColsMembers | sc2creativity/features/replay_dataframes.py:70-71 | `start_cols` holds exactly the columns ending in `_start` other than `game_start` |
| Dataframes.StartColsOfLayout | sc2creativity/features/replay_dataframes.py:70-71 | with no action called `game`, `start_cols` is the actions' start columns in column order |
| Dataframes.Rescored | sc2creativity/features/replay_dataframes.py:97-98 | rescoring keeps the row's keys and keeps numbers numbers |
| Dataframes.RescoredAt | sc2creativity/features/replay_dataframes.py:97-98 | each distinct start column gets the score of its filled value, once; every other column is untouched |
| Dataframes.SetAllAt | sc2creativity/features/replay_dataframes.py:81-82 | every start column holds 3600 after the defaults pass; the rest keep their value |
| Dataframes.PlayersAt | sc2creativity/features/replay_dataframes.py:84-91 | the player pass, key by key: start time, duration, names, and a 1.0 on the two race flags; the last write to a key wins |
| Dataframes.WithActionsHit | sc2creativity/features/replay_dataframes.py:93-95 | with distinct names, each action's weight column holds its weight and its start column its first time |
| Dataframes.WithActionsUntouched | sc2creativity/features/replay_dataframes.py:93-95 | a column that is no action's start or weight column is untouched by the action pass |
| Dataframes.Row | sc2creativity/features/replay_dataframes.py:100-102 | a row has one value per column |
| Dataframes.SetStartDefaults | sc2creativity/features/replay_dataframes.py:81-82 | the defaults loop sets each start column to 3600 in turn |
| Dataframes.FillActions | sc2creativity/features/replay_dataframes.py:93-95 | the action loop writes each action's weight and then its first time |
| Dataframes.ApplyStartScores | sc2creativity/features/replay_dataframes.py:97-98 | the score loop replaces each start column's value by its start score |
| Dataframes.FillRow | sc2creativity/features/replay_dataframes.py:78-102 | the passes for one summary produce `Row` of that summary |
| Dataframes.BuildRows | sc2creativity/features/replay_dataframes.py:74-103 | one row per summary, in order, with `replay_ids` parallel to `data` |
| Dataframes.BuildDataframe | sc2creativity/features/replay_dataframes.py:39-103 | the sorted column layout; one row per summary, in order; `replay_ids` parallel to `data`; `my_race` from the last summary |
| Dataframes.RowFixedCells | sc2creativity/features/replay_dataframes.py:84-91 | a row's ten fixed cells: start time, duration, own name, opponent name, and the race flags, 1 for the player's race and 0 for the others |
| Dataframes.RaceFlagsOneHot | sc2creativity/features/replay_dataframes.py:90-91 | for valid races exactly one self flag and one opponent flag are 1.0; the others are 0.0 |
| Dataframes.RowStartCell | sc2creativity/features/replay_dataframes.py:78-98 | an action's start cell is the score of its first time, so `3600/t`, or 36000 for `t == 0`; an action absent from the summary scores `3600/3600 = 1.0` |
| Dataframes.RowWeightCell | sc2creativity/features/replay_dataframes.py:78-95 | an action's weight cell is its `event_weight`, or 0.0 when it is absent from the summary |
| Dataframes.SortedNamesFit | sc2creativity/features/replay_dataframes.py:41-44 | the sorted union of action names is distinct and holds every action name of every summary, so the cell lemmas apply to every row |
| Pipeline.SummaryFitsTable | sc2creativity/features/summaries.py:183-189 | every summary summaries.py writes has races among the table's flag columns and distinct action names |

## Left out

- File and process I/O is not modelled. This covers glob, zip extraction, temporary files, `cleanup_garbage`, pickle load and dump, `print`, the click commands and `main`. `load_old_summaries`, including its bare `except`, is the `null` argument of `WriteRace`.
- `build_replay_id` is SHA-256 over parser fields, a foreign library. The base id is a parameter of `SummariesForReplay`.
- `sc2reader.load_replay` and its event classes are foreign parsing. A replay and its events are given as plain values.
- The `build_summaries` driver is not modelled: the `multiprocessing` pool, `imap_unordered`, `CPUS`, `MAX_REPLAYS`, and the grouping of summaries by race before `write_race`. These are concurrency and driver policy.
- The rest of models/find_replay.py is not modelled: the shuffled parallel search, `search_file` and the file copy. Only the id split is modelled.
- utils.py only joins paths and is not modelled.
- pandas `DataFrame` construction, `df.head()` and `to_hdf` are not modelled. `BuildDataframe` returns the columns, data, index and race that would be handed to them.
- Floating point: `0.5 ** x` is the `decay` parameter, and every other number is a `real`. `int(real_length.total_seconds())` and the `datetime` start time are given values.
- Summaries.GetRace: `str.lower()` is modelled on ASCII letters only. This makes no difference for the races compared against.
- FindReplay.ParseReplayId: `int()` is modelled on non-empty ASCII digit strings. Python also accepts signs, surrounding whitespace, `_` between digits and other Unicode digits. None of these can appear in an id that `SeatId` made.
- Aggregation.SortByName: `list.sort` and `sorted` are modelled on values as insertion sorts. The in-place update of the list and the `list` objects' identity are not modelled.
- The `actions` dictionary is a map plus its insertion order. The per-entry list objects that grow in place are values.
- Summaries.SummariesForReplay, Summaries.SummarizeReplay, Summaries.SummarizeReplayAsWritten, Summaries.SummaryUnique, Summaries.SummaryFacts, Run.SummarizeReplay, Run.HandleReplay, Run.LegacySummaryFacts and Pipeline.SummaryFitsTable: require at least two players for a 1v1, as the parser provides. The source looks players up by id in the parser's `replay.player` (summaries.py:184, run.py:41), and that lookup is not part of this model; without a second player it would raise.
- Summaries.CallReplayPlayer is not a model of anything in types.py:21-23 by itself. It stands for Python's keyword check when the `ReplayPlayer` named tuple is called, and `SummarizeReplayAsWritten` uses it to exhibit the TypeError of the Findings row.
- Dataframes.RowFixedCells, Dataframes.RowStartCell and Dataframes.RowWeightCell assume no action is named `game`. Such an action's start column would be `game_start`, the game's start-time column. That column would then appear twice in `columns`, and the action's first time would overwrite the start time. The row functions model this case as written; only the lemmas exclude it.
- Dataframes.ApplyStartScores: requires every start column to hold a number. The row always meets this (`FilledRowNumeric`), so the TypeError Python would raise on a non-number is never modelled.

## Findings

| source | as written | input that shows it | evidently intended | confidence | as-written member | corrected member |
|---|---|---|---|---|---|---|
| sc2creativity/features/summaries.py:166-175 | `types.ReplayPlayer(name=..., winner=..., race=...)`, but the named tuple declares only `name` and `race` (sc2creativity/types.py:21-23), so the call raises TypeError | any 1v1 replay whose two races are valid, e.g. a Terran against a Zerg | build the player record from its declared fields, name and lower-cased race | not executed | Summaries.SummarizeReplayAsWritten | Summaries.SummarizeReplay |
