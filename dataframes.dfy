/**
 * sc2creativity/features/replay_dataframes.py: the feature table built from
 * a list of summaries. Ten fixed columns, then a start and a weight column
 * per action name in sorted order; one row per summary, in which an
 * action's first time t becomes the start score `3600 / (t or 0.1)`.
 */
module Dataframes {
  import opened Wrappers
  import opened Strings
  import opened Types
  import opened Aggregation

  /** One hour in seconds: the start of an action never built. */
  const INFINITY: real := 3600.0

  const START_TIME_COL: string := "game_start"
  const DURATION_COL: string := "game_duration"
  const SELF_NAME_COL: string := "self_name"
  const OPPONENT_NAME_COL: string := "opponent_name"

  /** The race order of the flag columns (not the order summaries.py validates in). */
  const RACES: seq<string> := ["protoss", "zerg", "terran"]

  function StartCol(name: string): string { name + "_start" }

  function WeightCol(name: string): string { name + "_weight" }

  function SelfRaceCol(race: string): string { "self_race_is_" + race }

  function OpponentRaceCol(race: string): string { "opponent_race_is_" + race }

  /** A table cell: a number, a player name, or the replay's start time. */
  datatype Cell = Num(value: real) | Text(text: string) | Time(time: Timestamp)

  /** `INFINITY / (x or 0.1)`: zero is falsy, so it counts as a tenth of a second. */
  function StartScore(x: real): (r: real)
    ensures x != 0.0 ==> r * x == INFINITY
    ensures x == 0.0 ==> r == 10.0 * INFINITY
  {
    INFINITY / (if x == 0.0 then 0.1 else x)
  }

  /** An action never built scores exactly 1; an earlier start scores higher. */
  lemma StartScoreFacts(x: real, y: real)
    ensures StartScore(INFINITY) == 1.0
    ensures 0.0 < x ==> 0.0 < StartScore(x)
    ensures 0.0 < x <= y ==> StartScore(y) <= StartScore(x)
  {
    if 0.0 < x <= y {
      assert StartScore(y) * y == StartScore(x) * x;
      assert StartScore(x) * x <= StartScore(x) * y;
    }
  }

  // ---------------------------------------------------------------------
  // `all_action_names` and `my_race`.

  function NamesOf(actions: seq<ActionRollup>): set<string> {
    set a | a in actions :: a.name
  }

  /** The union of the action names of all summaries. */
  function ActionNamesOf(summaries: seq<ReplaySummary>): set<string>
    decreases |summaries|
  {
    if summaries == [] then {}
    else ActionNamesOf(summaries[..|summaries| - 1]) + NamesOf(summaries[|summaries| - 1].actions)
  }

  lemma {:induction false} ActionNamesMembership(summaries: seq<ReplaySummary>, n: string)
    ensures n in ActionNamesOf(summaries) <==>
      exists i, j :: 0 <= i < |summaries| && 0 <= j < |summaries[i].actions| && summaries[i].actions[j].name == n
    decreases |summaries|
  {
    if summaries != [] {
      var prefix, last := summaries[..|summaries| - 1], summaries[|summaries| - 1];
      ActionNamesMembership(prefix, n);
      if n in NamesOf(last.actions) {
        var a :| a in last.actions && a.name == n;
        var j :| 0 <= j < |last.actions| && last.actions[j] == a;
        assert summaries[|summaries| - 1].actions[j].name == n;
      }
      if exists i, j :: 0 <= i < |summaries| && 0 <= j < |summaries[i].actions| && summaries[i].actions[j].name == n {
        var i, j :| 0 <= i < |summaries| && 0 <= j < |summaries[i].actions| && summaries[i].actions[j].name == n;
        if i < |prefix| {
          assert prefix[i] == summaries[i];
        } else {
          assert summaries[i].actions[j] in last.actions;
        }
      }
    }
  }

  /**
   * The first loop of `build_dataframe`: the race of the last summary's own
   * player (None for no summaries) and the union of all action names.
   */
  method AllActionNames(summaries: seq<ReplaySummary>) returns (myRace: Option<string>, allActionNames: set<string>)
    ensures allActionNames == ActionNamesOf(summaries)
    ensures summaries == [] ==> myRace == None
    ensures summaries != [] ==> myRace == Some(summaries[|summaries| - 1].self.race)
  {
    myRace := None;
    allActionNames := {};
    for i := 0 to |summaries|
      invariant allActionNames == ActionNamesOf(summaries[..i])
      invariant i == 0 ==> myRace == None
      invariant i > 0 ==> myRace == Some(summaries[i - 1].self.race)
    {
      myRace := Some(summaries[i].self.race);
      var actions := summaries[i].actions;
      for j := 0 to |actions|
        invariant allActionNames == ActionNamesOf(summaries[..i]) + NamesOf(actions[..j])
      {
        assert actions[..j + 1] == actions[..j] + [actions[j]];
        allActionNames := allActionNames + {actions[j].name};
      }
      assert actions[..|actions|] == actions;
      assert summaries[..i + 1][..i] == summaries[..i];
    }
    assert summaries[..|summaries|] == summaries;
  }

  // ---------------------------------------------------------------------
  // Columns and `_add_column`.

  /** Every column has an index entry, and it is the column's last position. */
  predicate IndexesLast(columns: seq<string>, index: map<string, int>) {
    && (forall c :: c in index ==> c in columns)
    && (forall c :: c in columns ==> c in index)
    && (forall c :: c in index ==> 0 <= index[c] < |columns| && columns[index[c]] == c)
    && (forall c, j :: c in index && index[c] < j < |columns| ==> columns[j] != c)
  }

  /** With distinct column names the index is exact: `action_name_index[columns[i]] == i`. */
  lemma IndexOfDistinct(columns: seq<string>, index: map<string, int>, i: int)
    requires IndexesLast(columns, index) && Distinct(columns)
    requires 0 <= i < |columns|
    ensures columns[i] in index && index[columns[i]] == i
  {
    var c := columns[i];
    assert c in index;
    assert columns[index[c]] == c;
  }

  /** The column list and name-to-position index that `_add_column` grows. */
  class ColumnTable {
    var columns: seq<string>
    var actionNameIndex: map<string, int>

    ghost predicate Valid()
      reads this
    {
      IndexesLast(columns, actionNameIndex)
    }

    constructor ()
      ensures Valid() && columns == [] && actionNameIndex == map[]
    {
      columns := [];
      actionNameIndex := map[];
    }

    /** `_add_column`: append the name and point its index entry at the new last position. */
    method AddColumn(columnName: string)
      requires Valid()
      modifies this
      ensures Valid()
      ensures columns == old(columns) + [columnName]
      ensures actionNameIndex == old(actionNameIndex)[columnName := |old(columns)|]
    {
      columns := columns + [columnName];
      actionNameIndex := actionNameIndex[columns[|columns| - 1] := |columns| - 1];
    }
  }

  /** The ten columns every table starts with, in `_add_column` order. */
  const FIXED_COLUMNS: seq<string> := [
    "game_start", "game_duration", "self_name",
    "self_race_is_protoss", "self_race_is_zerg", "self_race_is_terran",
    "opponent_name",
    "opponent_race_is_protoss", "opponent_race_is_zerg", "opponent_race_is_terran"]

  /** The flag columns of the fixed part are those of RACES, in RACES order. */
  lemma RaceColumnsFixed()
    ensures |FIXED_COLUMNS| == 10
    ensures FIXED_COLUMNS[0] == START_TIME_COL && FIXED_COLUMNS[1] == DURATION_COL
    ensures FIXED_COLUMNS[2] == SELF_NAME_COL && FIXED_COLUMNS[6] == OPPONENT_NAME_COL
    ensures forall k :: 0 <= k < |RACES| ==>
      FIXED_COLUMNS[3 + k] == SelfRaceCol(RACES[k]) && FIXED_COLUMNS[7 + k] == OpponentRaceCol(RACES[k])
  {
    assert SelfRaceCol(RACES[0]) == "self_race_is_protoss";
    assert SelfRaceCol(RACES[1]) == "self_race_is_zerg";
    assert SelfRaceCol(RACES[2]) == "self_race_is_terran";
    assert OpponentRaceCol(RACES[0]) == "opponent_race_is_protoss";
    assert OpponentRaceCol(RACES[1]) == "opponent_race_is_zerg";
    assert OpponentRaceCol(RACES[2]) == "opponent_race_is_terran";
  }

  /** `X_start` then `X_weight` for each name, in the given order. */
  function ActionColumns(names: seq<string>): (r: seq<string>)
    ensures |r| == 2 * |names|
    decreases |names|
  {
    if names == [] then []
    else
      var last := names[|names| - 1];
      ActionColumns(names[..|names| - 1]) + [StartCol(last), WeightCol(last)]
  }

  /** The whole column list for the given (sorted) action names. */
  function ColumnLayout(names: seq<string>): (r: seq<string>)
    ensures |r| == 10 + 2 * |names|
  {
    FIXED_COLUMNS + ActionColumns(names)
  }

  lemma {:induction false} ActionColumnsShape(names: seq<string>)
    ensures |ActionColumns(names)| == 2 * |names|
    ensures forall k :: 0 <= k < |names| ==>
      ActionColumns(names)[2 * k] == StartCol(names[k]) && ActionColumns(names)[2 * k + 1] == WeightCol(names[k])
    decreases |names|
  {
    if names != [] {
      var prefix := names[..|names| - 1];
      ActionColumnsShape(prefix);
      forall k | 0 <= k < |names|
        ensures ActionColumns(names)[2 * k] == StartCol(names[k]) && ActionColumns(names)[2 * k + 1] == WeightCol(names[k])
      {
        if k < |prefix| {
          assert names[k] == prefix[k];
        }
      }
    }
  }

  /** Ten fixed columns, then the start column of action k at 10 + 2k and its weight column next to it. */
  lemma LayoutShape(names: seq<string>)
    ensures |ColumnLayout(names)| == 10 + 2 * |names|
    ensures ColumnLayout(names)[..10] == FIXED_COLUMNS
    ensures forall k :: 0 <= k < |names| ==>
      ColumnLayout(names)[10 + 2 * k] == StartCol(names[k]) && ColumnLayout(names)[11 + 2 * k] == WeightCol(names[k])
  {
    ActionColumnsShape(names);
    var cl := ColumnLayout(names);
    assert cl[..10] == FIXED_COLUMNS;
    forall k | 0 <= k < |names|
      ensures cl[10 + 2 * k] == StartCol(names[k]) && cl[11 + 2 * k] == WeightCol(names[k])
    {
      assert cl[10 + 2 * k] == ActionColumns(names)[2 * k];
      assert cl[11 + 2 * k] == ActionColumns(names)[2 * k + 1];
    }
  }

  /** One more name adds its start and its weight column at the end. */
  lemma ActionColumnsSnoc(names: seq<string>, k: int)
    requires 0 <= k < |names|
    ensures ActionColumns(names[..k + 1]) == ActionColumns(names[..k]) + [StartCol(names[k]), WeightCol(names[k])]
  {
    assert names[..k + 1][..k] == names[..k];
  }

  /** The first ten `_add_column` calls of `build_dataframe`. */
  method AddFixedColumns(table: ColumnTable)
    requires table.Valid() && table.columns == []
    modifies table
    ensures table.Valid()
    ensures table.columns == FIXED_COLUMNS
  {
    RaceColumnsFixed();
    table.AddColumn(START_TIME_COL);
    table.AddColumn(DURATION_COL);
    table.AddColumn(SELF_NAME_COL);
    assert table.columns == FIXED_COLUMNS[..3];
    for r := 0 to |RACES|
      invariant table.Valid()
      invariant table.columns == FIXED_COLUMNS[..3 + r]
    {
      assert FIXED_COLUMNS[..3 + r + 1] == FIXED_COLUMNS[..3 + r] + [FIXED_COLUMNS[3 + r]];
      table.AddColumn(SelfRaceCol(RACES[r]));
    }
    table.AddColumn(OPPONENT_NAME_COL);
    assert table.columns == FIXED_COLUMNS[..7];
    for r := 0 to |RACES|
      invariant table.Valid()
      invariant table.columns == FIXED_COLUMNS[..7 + r]
    {
      assert FIXED_COLUMNS[..7 + r + 1] == FIXED_COLUMNS[..7 + r] + [FIXED_COLUMNS[7 + r]];
      table.AddColumn(OpponentRaceCol(RACES[r]));
    }
    assert FIXED_COLUMNS[..10] == FIXED_COLUMNS;
  }

  /** The loop over the sorted action names: a start and a weight column for each. */
  method AddActionColumns(table: ColumnTable, names: seq<string>)
    requires table.Valid()
    modifies table
    ensures table.Valid()
    ensures table.columns == old(table.columns) + ActionColumns(names)
  {
    ghost var before := table.columns;
    assert names[..0] == [];
    for k := 0 to |names|
      invariant table.Valid()
      invariant table.columns == before + ActionColumns(names[..k])
    {
      ActionColumnsSnoc(names, k);
      table.AddColumn(StartCol(names[k]));
      table.AddColumn(WeightCol(names[k]));
    }
    assert names[..|names|] == names;
  }

  /**
   * The column part of `build_dataframe`: the fixed columns, then a start
   * and a weight column per action name in `sorted` order.
   */
  method BuildColumns(allActionNames: set<string>) returns (table: ColumnTable)
    ensures fresh(table) && table.Valid()
    ensures table.columns == ColumnLayout(SortedStrings(allActionNames))
  {
    table := new ColumnTable();
    AddFixedColumns(table);
    AddActionColumns(table, SortedStrings(allActionNames));
  }

  // ---------------------------------------------------------------------
  // Which column names can coincide.

  lemma SuffixesDiffer(a: string, b: string, sa: string, sb: string)
    requires |sa| <= |sb| && !EndsWith(sb, sa)
    ensures a + sa != b + sb
  {
    EndsWithConcat(a, sa, sa);
    EndsWithConcat(b, sb, sa);
    assert EndsWith(sa, sa);
  }

  lemma StartColInjective(a: string, b: string)
    requires StartCol(a) == StartCol(b)
    ensures a == b
  {
    ConcatCancel(a, b, "_start");
  }

  lemma WeightColInjective(a: string, b: string)
    requires WeightCol(a) == WeightCol(b)
    ensures a == b
  {
    ConcatCancel(a, b, "_weight");
  }

  lemma StartIsNotWeight(a: string, b: string)
    ensures StartCol(a) != WeightCol(b)
  {
    SuffixesDiffer(a, b, "_start", "_weight");
  }

  /** `col.endswith("_start") and col != START_TIME_COL`. */
  predicate IsStartCol(c: string) {
    EndsWith(c, "_start") && c != START_TIME_COL
  }

  /** Of the fixed columns none is a start column and none ends in `_weight`. */
  lemma FixedColumnsKinds()
    ensures forall c :: c in FIXED_COLUMNS ==> !IsStartCol(c) && !EndsWith(c, "_weight")
    ensures forall c :: c in FIXED_COLUMNS && c != START_TIME_COL ==> !EndsWith(c, "_start")
  {
  }

  /** An action's columns are never fixed columns, except `game_start` for an action called `game`. */
  lemma ActionColumnNotFixed(n: string, c: string)
    requires c in FIXED_COLUMNS
    ensures WeightCol(n) != c
    ensures n != "game" ==> StartCol(n) != c
  {
    FixedColumnsKinds();
    EndsWithConcat(n, "_weight", "_weight");
    assert EndsWith("_weight", "_weight");
    EndsWithConcat(n, "_start", "_start");
    assert EndsWith("_start", "_start");
    if n != "game" && StartCol(n) == START_TIME_COL {
      StartColInjective(n, "game");
    }
  }

  lemma DistinctConcat(a: seq<string>, b: seq<string>)
    requires Distinct(a) && Distinct(b)
    requires forall x :: x in a ==> x !in b
    ensures Distinct(a + b)
  {
    var ab := a + b;
    forall i, j | 0 <= i < j < |ab| ensures ab[i] != ab[j] {
      if j < |a| {
        assert ab[i] == a[i] && ab[j] == a[j];
      } else if i >= |a| {
        assert ab[i] == b[i - |a|] && ab[j] == b[j - |a|];
      } else {
        assert ab[i] == a[i] && ab[j] == b[j - |a|];
        assert ab[i] in a && ab[j] in b;
      }
    }
  }

  /** Each action column is the start or the weight column of one of the names. */
  lemma {:induction false} ActionColumnsMembers(names: seq<string>, c: string)
    requires c in ActionColumns(names)
    ensures exists n :: n in names && (c == StartCol(n) || c == WeightCol(n))
    decreases |names|
  {
    var prefix, last := names[..|names| - 1], names[|names| - 1];
    if c in ActionColumns(prefix) {
      ActionColumnsMembers(prefix, c);
      var n :| n in prefix && (c == StartCol(n) || c == WeightCol(n));
      assert n in names;
    } else {
      assert last in names;
    }
  }

  /** Distinct names give distinct action columns. */
  lemma {:induction false} ActionColumnsDistinct(names: seq<string>)
    requires Distinct(names)
    ensures Distinct(ActionColumns(names))
    decreases |names|
  {
    if names != [] {
      var prefix, last := names[..|names| - 1], names[|names| - 1];
      assert Distinct(prefix);
      ActionColumnsDistinct(prefix);
      StartIsNotWeight(last, last);
      forall x | x in ActionColumns(prefix) ensures x !in [StartCol(last), WeightCol(last)] {
        ActionColumnsMembers(prefix, x);
        var n :| n in prefix && (x == StartCol(n) || x == WeightCol(n));
        var i :| 0 <= i < |prefix| && prefix[i] == n;
        assert names[i] == n && n != last;
        StartIsNotWeight(n, last);
        StartIsNotWeight(last, n);
        if x == StartCol(last) { StartColInjective(n, last); }
        if x == WeightCol(last) { WeightColInjective(n, last); }
      }
      DistinctConcat(ActionColumns(prefix), [StartCol(last), WeightCol(last)]);
    }
  }

  /** With distinct names and no action `game`, all columns are distinct. */
  lemma LayoutDistinct(names: seq<string>)
    requires Distinct(names) && "game" !in names
    ensures Distinct(ColumnLayout(names))
  {
    FixedColumnsDistinct();
    ActionColumnsDistinct(names);
    forall x | x in FIXED_COLUMNS ensures x !in ActionColumns(names) {
      if x in ActionColumns(names) {
        ActionColumnsMembers(names, x);
        var n :| n in names && (x == StartCol(n) || x == WeightCol(n));
        ActionColumnsNotFixed(n);
      }
    }
    DistinctConcat(FIXED_COLUMNS, ActionColumns(names));
  }

  // ---------------------------------------------------------------------
  // `start_cols`.

  /** `[col for col in columns if col.endswith("_start") and col != START_TIME_COL]`. */
  function StartCols(columns: seq<string>): seq<string>
    decreases |columns|
  {
    if columns == [] then []
    else
      var last := columns[|columns| - 1];
      StartCols(columns[..|columns| - 1]) + (if IsStartCol(last) then [last] else [])
  }

  /** `start_cols` keeps exactly the start columns. */
  lemma {:induction false} StartColsMembers(columns: seq<string>)
    ensures forall c :: c in StartCols(columns) <==> c in columns && IsStartCol(c)
    decreases |columns|
  {
    if columns != [] {
      var prefix := columns[..|columns| - 1];
      StartColsMembers(prefix);
      assert columns == prefix + [columns[|columns| - 1]];
    }
  }

  lemma {:induction false} StartColsAppend(a: seq<string>, b: seq<string>)
    ensures StartCols(a + b) == StartCols(a) + StartCols(b)
    decreases |b|
  {
    if b == [] {
      assert a + b == a;
    } else {
      var b' := b[..|b| - 1];
      assert (a + b)[..|a + b| - 1] == a + b';
      assert (a + b)[|a + b| - 1] == b[|b| - 1];
      StartColsAppend(a, b');
    }
  }

  lemma {:induction false} StartColsNone(columns: seq<string>)
    requires forall c :: c in columns ==> !IsStartCol(c)
    ensures StartCols(columns) == []
    decreases |columns|
  {
    if columns != [] {
      StartColsNone(columns[..|columns| - 1]);
    }
  }

  /** The start columns of a layout: one per action, in order. */
  function StartColumnsOf(names: seq<string>): seq<string>
    decreases |names|
  {
    if names == [] then [] else StartColumnsOf(names[..|names| - 1]) + [StartCol(names[|names| - 1])]
  }

  lemma {:induction false} StartColumnsShape(names: seq<string>)
    ensures |StartColumnsOf(names)| == |names|
    ensures forall k :: 0 <= k < |names| ==> StartColumnsOf(names)[k] == StartCol(names[k])
    decreases |names|
  {
    if names != [] {
      var prefix := names[..|names| - 1];
      StartColumnsShape(prefix);
      forall k | 0 <= k < |names| ensures StartColumnsOf(names)[k] == StartCol(names[k]) {
        if k < |prefix| {
          assert names[k] == prefix[k];
        }
      }
    }
  }

  /** Of an action's two columns only the first is a start column, unless the action is `game`. */
  lemma ActionPairStartCols(n: string)
    requires n != "game"
    ensures StartCols([StartCol(n), WeightCol(n)]) == [StartCol(n)]
  {
    EndsWithConcat(n, "_start", "_start");
    assert EndsWith("_start", "_start");
    EndsWithConcat(n, "_weight", "_start");
    assert !EndsWith("_weight", "_start");
    if StartCol(n) == START_TIME_COL {
      StartColInjective(n, "game");
    }
    assert IsStartCol(StartCol(n)) && !IsStartCol(WeightCol(n));
    assert [StartCol(n), WeightCol(n)][..1] == [StartCol(n)];
    assert [StartCol(n)][..0] == [];
    assert StartCols([StartCol(n)]) == [StartCol(n)];
    assert StartCols([StartCol(n), WeightCol(n)]) == StartCols([StartCol(n)]) + [];
  }

  /** Without an action called `game`, `start_cols` is exactly the actions' start columns in order. */
  lemma {:induction false} StartColsOfLayout(names: seq<string>)
    requires "game" !in names
    ensures StartCols(ColumnLayout(names)) == StartColumnsOf(names)
    decreases |names|
  {
    if names == [] {
      FixedColumnsKinds();
      StartColsNone(FIXED_COLUMNS);
      assert ColumnLayout(names) == FIXED_COLUMNS;
    } else {
      var prefix, last := names[..|names| - 1], names[|names| - 1];
      StartColsOfLayout(prefix);
      assert ColumnLayout(names) == ColumnLayout(prefix) + [StartCol(last), WeightCol(last)];
      StartColsAppend(ColumnLayout(prefix), [StartCol(last), WeightCol(last)]);
      ActionPairStartCols(last);
    }
  }

  /** The start columns of distinct names are distinct. */
  lemma StartColumnsDistinct(names: seq<string>)
    requires Distinct(names)
    ensures Distinct(StartColumnsOf(names))
  {
    var r := StartColumnsOf(names);
    StartColumnsShape(names);
    forall i, j | 0 <= i < j < |r| ensures r[i] != r[j] {
      if r[i] == r[j] {
        StartColInjective(names[i], names[j]);
      }
    }
  }

  // ---------------------------------------------------------------------
  // One row, pass by pass.

  /** `{col: 0. for col in columns}`. */
  function ZeroRow(columns: seq<string>): map<string, Cell> {
    map c | c in columns :: Num(0.0)
  }

  /** Setting each of `cols` to `v`, in turn. */
  function SetAll(row: map<string, Cell>, cols: seq<string>, v: Cell): map<string, Cell>
    decreases |cols|
  {
    if cols == [] then row
    else SetAll(row, cols[..|cols| - 1], v)[cols[|cols| - 1] := v]
  }

  /** The game's start, its duration, both names and both race flags. */
  function WithPlayers(row: map<string, Cell>, s: ReplaySummary): map<string, Cell> {
    row[START_TIME_COL := Time(s.startTime)]
       [DURATION_COL := Num(s.realDurationSeconds as real)]
       [SELF_NAME_COL := Text(s.self.name)]
       [OPPONENT_NAME_COL := Text(s.opponent.name)]
       [SelfRaceCol(s.self.race) := Num(1.0)]
       [OpponentRaceCol(s.opponent.race) := Num(1.0)]
  }

  /** Each action's weight, then its first time, in list order. */
  function WithActions(row: map<string, Cell>, actions: seq<ActionRollup>): map<string, Cell>
    decreases |actions|
  {
    if actions == [] then row
    else
      var a := actions[|actions| - 1];
      WithActions(row, actions[..|actions| - 1])
        [WeightCol(a.name) := Num(a.eventWeight)]
        [StartCol(a.name) := Num(a.firstEventTime as real)]
  }

  predicate NumericAt(row: map<string, Cell>, cols: seq<string>) {
    forall c :: c in cols ==> c in row && row[c].Num?
  }

  /** Replacing each of `cols` in turn by its start score. */
  function Rescored(row: map<string, Cell>, cols: seq<string>): (r: map<string, Cell>)
    requires NumericAt(row, cols)
    ensures r.Keys == row.Keys
    ensures forall k :: k in row && row[k].Num? ==> r[k].Num?
    decreases |cols|
  {
    if cols == [] then row
    else
      var prefix, c := cols[..|cols| - 1], cols[|cols| - 1];
      assert forall k :: k in prefix ==> k in cols;
      var r := Rescored(row, prefix);
      r[c := Num(StartScore(r[c].value))]
  }

  lemma {:induction false} SetAllKeys(row: map<string, Cell>, cols: seq<string>, v: Cell)
    ensures forall k :: k in SetAll(row, cols, v) <==> k in row || k in cols
    decreases |cols|
  {
    if cols != [] {
      SetAllKeys(row, cols[..|cols| - 1], v);
      assert cols == cols[..|cols| - 1] + [cols[|cols| - 1]];
    }
  }

  lemma {:induction false} WithActionsKeys(row: map<string, Cell>, actions: seq<ActionRollup>)
    ensures forall k :: k in row ==> k in WithActions(row, actions)
    decreases |actions|
  {
    if actions != [] {
      WithActionsKeys(row, actions[..|actions| - 1]);
    }
  }

  /** Every start column of the row holds a number. */
  predicate NumericStarts(row: map<string, Cell>) {
    forall k :: k in row && IsStartCol(k) ==> row[k].Num?
  }

  lemma {:induction false} SetAllNumeric(row: map<string, Cell>, cols: seq<string>, x: real)
    requires NumericStarts(row)
    ensures NumericStarts(SetAll(row, cols, Num(x)))
    decreases |cols|
  {
    if cols != [] {
      SetAllNumeric(row, cols[..|cols| - 1], x);
    }
  }

  lemma WithPlayersNumeric(row: map<string, Cell>, s: ReplaySummary)
    requires NumericStarts(row)
    ensures NumericStarts(WithPlayers(row, s))
  {
    FixedColumnsKinds();
    RaceColumnsFixed();
    assert SELF_NAME_COL in FIXED_COLUMNS && OPPONENT_NAME_COL in FIXED_COLUMNS;
  }

  lemma {:induction false} WithActionsNumeric(row: map<string, Cell>, actions: seq<ActionRollup>)
    requires NumericStarts(row)
    ensures NumericStarts(WithActions(row, actions))
    decreases |actions|
  {
    if actions != [] {
      WithActionsNumeric(row, actions[..|actions| - 1]);
    }
  }

  /** The row after the fill passes, before the start scores. */
  function FilledRow(s: ReplaySummary, columns: seq<string>): map<string, Cell> {
    WithActions(WithPlayers(SetAll(ZeroRow(columns), StartCols(columns), Num(INFINITY)), s), s.actions)
  }

  /** Every column is a key of the filled row, and every start column holds a number there. */
  lemma FilledRowNumeric(s: ReplaySummary, columns: seq<string>)
    ensures NumericAt(FilledRow(s, columns), StartCols(columns))
    ensures forall c :: c in columns ==> c in FilledRow(s, columns)
  {
    var startCols := StartCols(columns);
    StartColsMembers(columns);
    SetAllNumeric(ZeroRow(columns), startCols, INFINITY);
    SetAllKeys(ZeroRow(columns), startCols, Num(INFINITY));
    var set0 := SetAll(ZeroRow(columns), startCols, Num(INFINITY));
    WithPlayersNumeric(set0, s);
    WithActionsNumeric(WithPlayers(set0, s), s.actions);
    WithActionsKeys(WithPlayers(set0, s), s.actions);
  }

  /** `row_dict` once every pass has run. */
  function RowDict(s: ReplaySummary, columns: seq<string>): (r: map<string, Cell>)
    ensures forall c :: c in columns ==> c in r
  {
    FilledRowNumeric(s, columns);
    Rescored(FilledRow(s, columns), StartCols(columns))
  }

  /** `[row_dict[col] for col in columns]`. */
  function Row(s: ReplaySummary, columns: seq<string>): (r: seq<Cell>)
    ensures |r| == |columns|
  {
    var d := RowDict(s, columns);
    seq(|columns|, i requires 0 <= i < |columns| => d[columns[i]])
  }

  /** `for col in start_cols: row_dict[col] = INFINITY`. */
  method SetStartDefaults(rowDict: map<string, Cell>, startCols: seq<string>) returns (r: map<string, Cell>)
    ensures r == SetAll(rowDict, startCols, Num(INFINITY))
  {
    r := rowDict;
    for i := 0 to |startCols|
      invariant r == SetAll(rowDict, startCols[..i], Num(INFINITY))
    {
      assert startCols[..i + 1][..i] == startCols[..i];
      r := r[startCols[i] := Num(INFINITY)];
    }
    assert startCols[..|startCols|] == startCols;
  }

  /** The loop over `summary.actions`. */
  method FillActions(rowDict: map<string, Cell>, actions: seq<ActionRollup>) returns (r: map<string, Cell>)
    ensures r == WithActions(rowDict, actions)
  {
    r := rowDict;
    for j := 0 to |actions|
      invariant r == WithActions(rowDict, actions[..j])
    {
      assert actions[..j + 1][..j] == actions[..j];
      r := r[WeightCol(actions[j].name) := Num(actions[j].eventWeight)];
      r := r[StartCol(actions[j].name) := Num(actions[j].firstEventTime as real)];
    }
    assert actions[..|actions|] == actions;
  }

  /** `for col in start_cols: row_dict[col] = INFINITY / (row_dict[col] or 0.1)`. */
  method ApplyStartScores(rowDict: map<string, Cell>, startCols: seq<string>) returns (r: map<string, Cell>)
    requires NumericAt(rowDict, startCols)
    ensures r == Rescored(rowDict, startCols)
  {
    r := rowDict;
    for i := 0 to |startCols|
      invariant NumericAt(rowDict, startCols[..i])
      invariant r == Rescored(rowDict, startCols[..i])
    {
      assert startCols[..i + 1][..i] == startCols[..i];
      assert startCols[i] in startCols;
      var x := r[startCols[i]].value;
      r := r[startCols[i] := Num(StartScore(x))];
      assert forall c :: c in startCols[..i + 1] ==> c in startCols;
    }
    assert startCols[..|startCols|] == startCols;
  }

  /** The body of the row loop of `build_dataframe` for one summary. */
  method FillRow(summary: ReplaySummary, columns: seq<string>, startCols: seq<string>) returns (row: seq<Cell>)
    requires startCols == StartCols(columns)
    ensures row == Row(summary, columns)
  {
    var rowDict := map col | col in columns :: Num(0.0);
    rowDict := SetStartDefaults(rowDict, startCols);
    rowDict := rowDict[START_TIME_COL := Time(summary.startTime)];
    rowDict := rowDict[DURATION_COL := Num(summary.realDurationSeconds as real)];
    rowDict := rowDict[SELF_NAME_COL := Text(summary.self.name)];
    rowDict := rowDict[OPPONENT_NAME_COL := Text(summary.opponent.name)];
    rowDict := rowDict[SelfRaceCol(summary.self.race) := Num(1.0)];
    rowDict := rowDict[OpponentRaceCol(summary.opponent.race) := Num(1.0)];
    rowDict := FillActions(rowDict, summary.actions);
    assert rowDict == FilledRow(summary, columns);
    FilledRowNumeric(summary, columns);
    rowDict := ApplyStartScores(rowDict, startCols);
    assert rowDict == RowDict(summary, columns);
    row := seq(|columns|, i requires 0 <= i < |columns| => rowDict[columns[i]]);
  }

  /** `values` is the row of summary `s` under `columns`. */
  predicate IsRowOf(values: seq<Cell>, s: ReplaySummary, columns: seq<string>) {
    values == Row(s, columns)
  }

  /** The row loop of `build_dataframe`: one row per summary and its replay id alongside. */
  method BuildRows(summaries: seq<ReplaySummary>, columns: seq<string>) returns (data: seq<seq<Cell>>, replayIds: seq<string>)
    ensures |data| == |summaries| && |replayIds| == |summaries|
    ensures forall i :: 0 <= i < |summaries| ==> IsRowOf(data[i], summaries[i], columns)
    ensures forall i :: 0 <= i < |summaries| ==> replayIds[i] == summaries[i].replayId
  {
    var startCols := StartCols(columns);
    data := [];
    replayIds := [];
    for i := 0 to |summaries|
      invariant |data| == i && |replayIds| == i
      invariant forall k :: 0 <= k < i ==> IsRowOf(data[k], summaries[k], columns)
      invariant forall k :: 0 <= k < i ==> replayIds[k] == summaries[k].replayId
    {
      var row := FillRow(summaries[i], columns, startCols);
      data := data + [row];
      replayIds := replayIds + [summaries[i].replayId];
    }
  }

  /**
   * `build_dataframe` up to the DataFrame itself: the columns, one row per
   * summary in order, the replay ids parallel to the rows, and the race the
   * output file is named after.
   */
  method BuildDataframe(summaries: seq<ReplaySummary>)
    returns (columns: seq<string>, data: seq<seq<Cell>>, replayIds: seq<string>, myRace: Option<string>)
    ensures columns == ColumnLayout(SortedStrings(ActionNamesOf(summaries)))
    ensures |data| == |summaries| && |replayIds| == |summaries|
    ensures forall i :: 0 <= i < |summaries| ==> IsRowOf(data[i], summaries[i], columns)
    ensures forall i :: 0 <= i < |summaries| ==> replayIds[i] == summaries[i].replayId
    ensures summaries == [] ==> myRace == None
    ensures summaries != [] ==> myRace == Some(summaries[|summaries| - 1].self.race)
  {
    var allActionNames;
    myRace, allActionNames := AllActionNames(summaries);
    var table := BuildColumns(allActionNames);
    columns := table.columns;
    data, replayIds := BuildRows(summaries, columns);
  }

  // ---------------------------------------------------------------------
  // What a row holds, column by column.

  lemma {:induction false} SetAllAt(row: map<string, Cell>, cols: seq<string>, v: Cell, c: string)
    requires c in row || c in cols
    ensures c in SetAll(row, cols, v)
    ensures SetAll(row, cols, v)[c] == if c in cols then v else row[c]
    decreases |cols|
  {
    if cols != [] {
      var prefix := cols[..|cols| - 1];
      assert cols == prefix + [cols[|cols| - 1]];
      if c != cols[|cols| - 1] {
        SetAllAt(row, prefix, v, c);
      }
    }
  }

  /** No action's pass touches a column that is neither its start nor its weight column. */
  lemma {:induction false} WithActionsUntouched(row: map<string, Cell>, actions: seq<ActionRollup>, c: string)
    requires c in row
    requires forall j :: 0 <= j < |actions| ==> c != WeightCol(actions[j].name) && c != StartCol(actions[j].name)
    ensures c in WithActions(row, actions) && WithActions(row, actions)[c] == row[c]
    decreases |actions|
  {
    if actions != [] {
      WithActionsUntouched(row, actions[..|actions| - 1], c);
    }
  }

  /** With distinct names, each action's two columns end up holding its weight and its first time. */
  lemma {:induction false} WithActionsHit(row: map<string, Cell>, actions: seq<ActionRollup>, j: int)
    requires DistinctNames(actions) && 0 <= j < |actions|
    ensures var r, a := WithActions(row, actions), actions[j];
      && WeightCol(a.name) in r && r[WeightCol(a.name)] == Num(a.eventWeight)
      && StartCol(a.name) in r && r[StartCol(a.name)] == Num(a.firstEventTime as real)
    decreases |actions|
  {
    var last, a := actions[|actions| - 1], actions[j];
    StartIsNotWeight(last.name, a.name);
    if j < |actions| - 1 {
      var prefix := actions[..|actions| - 1];
      assert prefix[j] == a;
      WithActionsHit(row, prefix, j);
      assert a.name != last.name;
      if WeightCol(a.name) == WeightCol(last.name) { WeightColInjective(a.name, last.name); }
      if StartCol(a.name) == StartCol(last.name) { StartColInjective(a.name, last.name); }
      StartIsNotWeight(a.name, last.name);
    }
  }

  /** Rescoring distinct columns rescores each of them once, from its filled value, and nothing else. */
  lemma {:induction false} RescoredAt(row: map<string, Cell>, cols: seq<string>, c: string)
    requires NumericAt(row, cols) && Distinct(cols) && c in row
    ensures Rescored(row, cols)[c] == if c in cols then Num(StartScore(row[c].value)) else row[c]
    decreases |cols|
  {
    if cols != [] {
      var prefix, last := cols[..|cols| - 1], cols[|cols| - 1];
      assert cols == prefix + [last];
      assert forall k :: k in prefix ==> k in cols;
      assert last !in prefix by {
        forall k | 0 <= k < |prefix| ensures prefix[k] != last {
          assert prefix[k] == cols[k];
        }
      }
      RescoredAt(row, prefix, c);
      if c != last {
        RescoredAt(row, prefix, c);
      } else {
        RescoredAt(row, prefix, last);
      }
    }
  }

  /**
   * The conditions under which `build_dataframe` sees a summary: the action
   * names are distinct, all appear among the (distinct) column names, none
   * is `game`, and both races are in RACES.
   */
  predicate Fits(s: ReplaySummary, names: seq<string>) {
    && Distinct(names)
    && "game" !in names
    && DistinctNames(s.actions)
    && (forall j :: 0 <= j < |s.actions| ==> s.actions[j].name in names)
    && s.self.race in RACES
    && s.opponent.race in RACES
  }

  /** The race flag columns are exactly the fixed columns from 3 to 5 and from 7 to 9. */
  lemma RaceColumnsAreFixed(race: string)
    requires race in RACES
    ensures SelfRaceCol(race) in FIXED_COLUMNS[3..6] && OpponentRaceCol(race) in FIXED_COLUMNS[7..10]
  {
    RaceColumnsFixed();
    var k :| 0 <= k < |RACES| && RACES[k] == race;
    assert FIXED_COLUMNS[3..6][k] == SelfRaceCol(race);
    assert FIXED_COLUMNS[7..10][k] == OpponentRaceCol(race);
  }

  /** The ten fixed column names differ from one another. */
  lemma FixedColumnsDistinct()
    ensures Distinct(FIXED_COLUMNS)
  {
  }

  /** The player pass, key by key: the last of its writes to `c` wins. */
  lemma PlayersAt(s: ReplaySummary, base: map<string, Cell>, c: string)
    requires c in base
    ensures c in WithPlayers(base, s)
    ensures WithPlayers(base, s)[c] ==
      if c == OpponentRaceCol(s.opponent.race) then Num(1.0)
      else if c == SelfRaceCol(s.self.race) then Num(1.0)
      else if c == OPPONENT_NAME_COL then Text(s.opponent.name)
      else if c == SELF_NAME_COL then Text(s.self.name)
      else if c == DURATION_COL then Num(s.realDurationSeconds as real)
      else if c == START_TIME_COL then Time(s.startTime)
      else base[c]
  {
  }

  /** What a fixed column of a row holds: the game, the names, and one-hot race flags. */
  function FixedCell(s: ReplaySummary, p: int): Cell
    requires 0 <= p < 10
  {
    if p == 0 then Time(s.startTime)
    else if p == 1 then Num(s.realDurationSeconds as real)
    else if p == 2 then Text(s.self.name)
    else if p == 6 then Text(s.opponent.name)
    else if p < 6 then Num(if RACES[p - 3] == s.self.race then 1.0 else 0.0)
    else Num(if RACES[p - 7] == s.opponent.race then 1.0 else 0.0)
  }

  /** The values the passes before the start scores write, as seen at one column. */
  lemma FilledAt(s: ReplaySummary, names: seq<string>, c: string)
    requires Fits(s, names) && c in ColumnLayout(names)
    ensures var cl := ColumnLayout(names);
      && StartCols(cl) == StartColumnsOf(names)
      && Distinct(StartCols(cl))
      && NumericAt(FilledRow(s, cl), StartCols(cl))
      && c in FilledRow(s, cl)
      && RowDict(s, cl)[c] == Rescored(FilledRow(s, cl), StartCols(cl))[c]
  {
    var cl := ColumnLayout(names);
    StartColsOfLayout(names);
    StartColumnsDistinct(names);
    FilledRowNumeric(s, cl);
  }

  /** After the player pass a fixed column holds its FixedCell, given zeros before it. */
  lemma PlayersFixedCell(s: ReplaySummary, base: map<string, Cell>, p: int)
    requires s.self.race in RACES && s.opponent.race in RACES
    requires 0 <= p < 10 && FIXED_COLUMNS[p] in base && base[FIXED_COLUMNS[p]] == Num(0.0)
    ensures WithPlayers(base, s)[FIXED_COLUMNS[p]] == FixedCell(s, p)
  {
    RaceColumnsFixed();
    FixedColumnsDistinct();
    PlayersAt(s, base, FIXED_COLUMNS[p]);
    var ks :| 0 <= ks < |RACES| && RACES[ks] == s.self.race;
    var ko :| 0 <= ko < |RACES| && RACES[ko] == s.opponent.race;
    assert SelfRaceCol(s.self.race) == FIXED_COLUMNS[3 + ks];
    assert OpponentRaceCol(s.opponent.race) == FIXED_COLUMNS[7 + ko];
    if 3 <= p < 6 {
      assert RACES[p - 3] == s.self.race <==> p == 3 + ks;
    } else if 7 <= p {
      assert RACES[p - 7] == s.opponent.race <==> p == 7 + ko;
    }
  }

  /** The ten fixed columns of a row hold the start time, the duration, the names and the race flags. */
  lemma RowFixedCells(s: ReplaySummary, names: seq<string>, p: int)
    requires Fits(s, names) && 0 <= p < 10
    ensures Row(s, ColumnLayout(names))[p] == FixedCell(s, p)
  {
    var cl := ColumnLayout(names);
    LayoutShape(names);
    FixedColumnsKinds();
    var c := cl[p];
    assert c == FIXED_COLUMNS[p] && c in FIXED_COLUMNS;
    var sc := StartCols(cl);
    StartColsMembers(cl);
    assert c !in sc;
    FilledAt(s, names, c);
    var zero := ZeroRow(cl);
    SetAllAt(zero, sc, Num(INFINITY), c);
    var base := SetAll(zero, sc, Num(INFINITY));
    PlayersFixedCell(s, base, p);
    var players := WithPlayers(base, s);
    assert c in players;
    forall j | 0 <= j < |s.actions| ensures c != WeightCol(s.actions[j].name) && c != StartCol(s.actions[j].name) {
      ActionColumnNotFixed(s.actions[j].name, c);
    }
    WithActionsUntouched(players, s.actions, c);
    RescoredAt(FilledRow(s, cl), sc, c);
    assert Row(s, cl)[p] == players[c];
  }

  /** Neither column of an action other than `game` is a fixed column. */
  lemma ActionColumnsNotFixed(n: string)
    requires n != "game"
    ensures StartCol(n) !in FIXED_COLUMNS && WeightCol(n) !in FIXED_COLUMNS
  {
    forall i | 0 <= i < |FIXED_COLUMNS| ensures FIXED_COLUMNS[i] != StartCol(n) && FIXED_COLUMNS[i] != WeightCol(n) {
      ActionColumnNotFixed(n, FIXED_COLUMNS[i]);
    }
  }

  /** The player pass leaves every non-fixed column alone. */
  lemma PlayersNonFixed(s: ReplaySummary, base: map<string, Cell>, c: string)
    requires s.self.race in RACES && s.opponent.race in RACES
    requires c in base && c !in FIXED_COLUMNS
    ensures c in WithPlayers(base, s) && WithPlayers(base, s)[c] == base[c]
  {
    RaceColumnsAreFixed(s.self.race);
    RaceColumnsAreFixed(s.opponent.race);
    PlayersAt(s, base, c);
  }

  /**
   * The column of an action named `n` that no action of the summary carries
   * keeps, through the fill passes, the value `SetAll` gave it.
   */
  lemma FilledUntouched(s: ReplaySummary, names: seq<string>, c: string, n: string)
    requires Fits(s, names) && n in names && c in ColumnLayout(names)
    requires c == StartCol(n) || c == WeightCol(n)
    requires forall j :: 0 <= j < |s.actions| ==> s.actions[j].name != n
    ensures var cl := ColumnLayout(names);
      && c in SetAll(ZeroRow(cl), StartCols(cl), Num(INFINITY)) && c in FilledRow(s, cl)
      && FilledRow(s, cl)[c] == SetAll(ZeroRow(cl), StartCols(cl), Num(INFINITY))[c]
  {
    var cl := ColumnLayout(names);
    var sc := StartCols(cl);
    var zero := ZeroRow(cl);
    SetAllAt(zero, sc, Num(INFINITY), c);
    var base := SetAll(zero, sc, Num(INFINITY));
    ActionColumnsNotFixed(n);
    PlayersNonFixed(s, base, c);
    forall j | 0 <= j < |s.actions| ensures c != WeightCol(s.actions[j].name) && c != StartCol(s.actions[j].name) {
      var m := s.actions[j].name;
      StartIsNotWeight(n, m);
      StartIsNotWeight(m, n);
      if c == StartCol(m) { StartColInjective(n, m); }
      if c == WeightCol(m) { WeightColInjective(n, m); }
    }
    WithActionsUntouched(WithPlayers(base, s), s.actions, c);
  }

  /** The start column of action `names[k]`: the score of its first time, or 1 when it was never built. */
  lemma RowStartCell(s: ReplaySummary, names: seq<string>, k: int)
    requires Fits(s, names) && 0 <= k < |names|
    ensures forall j :: 0 <= j < |s.actions| && s.actions[j].name == names[k] ==>
      Row(s, ColumnLayout(names))[10 + 2 * k] == Num(StartScore(s.actions[j].firstEventTime as real))
    ensures (forall j :: 0 <= j < |s.actions| ==> s.actions[j].name != names[k]) ==>
      Row(s, ColumnLayout(names))[10 + 2 * k] == Num(1.0)
  {
    var cl := ColumnLayout(names);
    LayoutShape(names);
    var c := StartCol(names[k]);
    assert cl[10 + 2 * k] == c && c in cl;
    FilledAt(s, names, c);
    var sc := StartCols(cl);
    StartColumnsShape(names);
    assert sc[k] == c;
    RescoredAt(FilledRow(s, cl), sc, c);
    assert Row(s, cl)[10 + 2 * k] == Num(StartScore(FilledRow(s, cl)[c].value));
    forall j | 0 <= j < |s.actions| && s.actions[j].name == names[k]
      ensures Row(s, cl)[10 + 2 * k] == Num(StartScore(s.actions[j].firstEventTime as real))
    {
      WithActionsHit(WithPlayers(SetAll(ZeroRow(cl), sc, Num(INFINITY)), s), s.actions, j);
    }
    if forall j :: 0 <= j < |s.actions| ==> s.actions[j].name != names[k] {
      FilledUntouched(s, names, c, names[k]);
      SetAllAt(ZeroRow(cl), sc, Num(INFINITY), c);
      StartScoreFacts(INFINITY, INFINITY);
    }
  }

  /** The weight column of action `names[k]`: its decayed weight, or 0 when it was never built. */
  lemma RowWeightCell(s: ReplaySummary, names: seq<string>, k: int)
    requires Fits(s, names) && 0 <= k < |names|
    ensures forall j :: 0 <= j < |s.actions| && s.actions[j].name == names[k] ==>
      Row(s, ColumnLayout(names))[11 + 2 * k] == Num(s.actions[j].eventWeight)
    ensures (forall j :: 0 <= j < |s.actions| ==> s.actions[j].name != names[k]) ==>
      Row(s, ColumnLayout(names))[11 + 2 * k] == Num(0.0)
  {
    var cl := ColumnLayout(names);
    LayoutShape(names);
    var c := WeightCol(names[k]);
    assert cl[11 + 2 * k] == c && c in cl;
    FilledAt(s, names, c);
    var sc := StartCols(cl);
    StartColumnsShape(names);
    forall i | 0 <= i < |sc| ensures sc[i] != c {
      StartIsNotWeight(names[i], names[k]);
    }
    RescoredAt(FilledRow(s, cl), sc, c);
    assert Row(s, cl)[11 + 2 * k] == FilledRow(s, cl)[c];
    forall j | 0 <= j < |s.actions| && s.actions[j].name == names[k]
      ensures Row(s, cl)[11 + 2 * k] == Num(s.actions[j].eventWeight)
    {
      WithActionsHit(WithPlayers(SetAll(ZeroRow(cl), sc, Num(INFINITY)), s), s.actions, j);
    }
    if forall j :: 0 <= j < |s.actions| ==> s.actions[j].name != names[k] {
      FilledUntouched(s, names, c, names[k]);
      SetAllAt(ZeroRow(cl), sc, Num(INFINITY), c);
    }
  }

  /**
   * The sorted names of `build_dataframe` suit every summary whose own action
   * names are distinct and whose races are valid, provided no action anywhere
   * is called `game`.
   */
  lemma SortedNamesFit(summaries: seq<ReplaySummary>, i: int)
    requires 0 <= i < |summaries|
    requires DistinctNames(summaries[i].actions)
    requires summaries[i].self.race in RACES && summaries[i].opponent.race in RACES
    requires forall k, j :: 0 <= k < |summaries| && 0 <= j < |summaries[k].actions| ==> summaries[k].actions[j].name != "game"
    ensures Fits(summaries[i], SortedStrings(ActionNamesOf(summaries)))
  {
    var names := SortedStrings(ActionNamesOf(summaries));
    assert Distinct(names);
    ActionNamesMembership(summaries, "game");
    forall j | 0 <= j < |summaries[i].actions| ensures summaries[i].actions[j].name in names {
      ActionNamesMembership(summaries, summaries[i].actions[j].name);
    }
  }

  /**
   * For valid races the flags are one-hot: the flag of the player's own race
   * is 1 and every other flag of that player is 0.
   */
  lemma RaceFlagsOneHot(s: ReplaySummary)
    requires s.self.race in RACES && s.opponent.race in RACES
    ensures exists k :: 0 <= k < |RACES| && RACES[k] == s.self.race && FixedCell(s, 3 + k) == Num(1.0)
    ensures forall m :: 0 <= m < |RACES| && RACES[m] != s.self.race ==> FixedCell(s, 3 + m) == Num(0.0)
    ensures exists k :: 0 <= k < |RACES| && RACES[k] == s.opponent.race && FixedCell(s, 7 + k) == Num(1.0)
    ensures forall m :: 0 <= m < |RACES| && RACES[m] != s.opponent.race ==> FixedCell(s, 7 + m) == Num(0.0)
  {
    var ks :| 0 <= ks < |RACES| && RACES[ks] == s.self.race;
    var ko :| 0 <= ko < |RACES| && RACES[ko] == s.opponent.race;
    assert FixedCell(s, 3 + ks) == Num(1.0) && FixedCell(s, 7 + ko) == Num(1.0);
  }
}
