/**
 * The body of `summarize_replay`, shared by summaries.py and run.py: group
 * the build events by action name (admitting a name only when it is seen
 * without an entry at or before the initial-window cutoff), roll each
 * group up into its first time and decayed weight, and sort by name.
 *
 * The weight term `0.5 ** ((t - start) / 120.0)` is a parameter `decay`,
 * `decay(d)` standing for `0.5 ** (d / 120.0)`; ValidDecay states the
 * facts the proofs use about it.
 */
module Aggregation {
  import opened Wrappers
  import opened Strings
  import opened Types

  const WEIGHT_DECAY_HALF_LIFE_SECONDS: int := 120

  /** What is known of `d |-> 0.5 ** (d / 120.0)` on non-negative offsets. */
  ghost predicate ValidDecay(decay: int -> real) {
    && decay(0) == 1.0
    && (forall d :: d >= 0 ==> 0.0 < decay(d) <= 1.0)
    && (forall d :: d >= 0 ==> decay(d + WEIGHT_DECAY_HALF_LIFE_SECONDS) == decay(d) / 2.0)
  }

  // ---------------------------------------------------------------------
  // The `actions` dictionary, as a function of the events consumed so far.

  /** One turn of the loop: append to an existing entry, or open one inside the window. */
  function Step(actions: map<string, ActionEvents>, event: BuildEvent, cutoff: int): map<string, ActionEvents> {
    var name := event.targetName;
    if name in actions then actions[name := ActionEvents(name, actions[name].allEventTimes + [event.second])]
    else if event.second <= cutoff then actions[name := ActionEvents(name, [event.second])]
    else actions
  }

  /** The dictionary after the whole stream; every entry is keyed by its own name and is non-empty. */
  function Accumulate(events: seq<BuildEvent>, cutoff: int): (actions: map<string, ActionEvents>)
    ensures forall n :: n in actions ==>
      && actions[n].name == n
      && |actions[n].allEventTimes| > 0
      && actions[n].allEventTimes[0] <= cutoff
    decreases |events|
  {
    if events == [] then map[]
    else Step(Accumulate(events[..|events| - 1], cutoff), events[|events| - 1], cutoff)
  }

  /** The dictionary's keys in insertion order, the order `actions.values()` visits them. */
  function KeyOrder(events: seq<BuildEvent>, cutoff: int): seq<string>
    decreases |events|
  {
    if events == [] then []
    else
      var prefix, event := events[..|events| - 1], events[|events| - 1];
      if event.targetName !in Accumulate(prefix, cutoff) && event.second <= cutoff
      then KeyOrder(prefix, cutoff) + [event.targetName]
      else KeyOrder(prefix, cutoff)
  }

  predicate Distinct(s: seq<string>) {
    forall i, j :: 0 <= i < j < |s| ==> s[i] != s[j]
  }

  /** The insertion order lists every key exactly once. */
  lemma {:induction false} KeyOrderIsKeys(events: seq<BuildEvent>, cutoff: int)
    ensures forall n :: n in KeyOrder(events, cutoff) <==> n in Accumulate(events, cutoff)
    ensures Distinct(KeyOrder(events, cutoff))
    decreases |events|
  {
    if events != [] {
      KeyOrderIsKeys(events[..|events| - 1], cutoff);
    }
  }

  /** `e` is an occurrence of `name` inside the window. */
  predicate Admits(e: BuildEvent, name: string, cutoff: int) {
    e.targetName == name && e.second <= cutoff
  }

  /** The seconds of every occurrence of `name`, in stream order. */
  function TimesOf(events: seq<BuildEvent>, name: string): seq<int>
    decreases |events|
  {
    if events == [] then []
    else
      var last := events[|events| - 1];
      TimesOf(events[..|events| - 1], name) + (if last.targetName == name then [last.second] else [])
  }

  /** `events[i]` is the first occurrence of `name` inside the window. */
  predicate IsFirstAdmitting(events: seq<BuildEvent>, name: string, cutoff: int, i: int) {
    && 0 <= i < |events|
    && Admits(events[i], name, cutoff)
    && forall j :: 0 <= j < i ==> !Admits(events[j], name, cutoff)
  }

  /** A name has an entry iff some occurrence of it lies inside the window, bound included. */
  lemma {:induction false} AccumulateAdmits(events: seq<BuildEvent>, cutoff: int, name: string)
    ensures name in Accumulate(events, cutoff) <==> exists i :: 0 <= i < |events| && Admits(events[i], name, cutoff)
    decreases |events|
  {
    if events != [] {
      var prefix := events[..|events| - 1];
      AccumulateAdmits(prefix, cutoff, name);
      if name in Accumulate(events, cutoff) {
        if name !in Accumulate(prefix, cutoff) {
          assert Admits(events[|events| - 1], name, cutoff);
        } else {
          var i :| 0 <= i < |prefix| && Admits(prefix[i], name, cutoff);
          assert events[i] == prefix[i];
        }
      }
      if exists i :: 0 <= i < |events| && Admits(events[i], name, cutoff) {
        var i :| 0 <= i < |events| && Admits(events[i], name, cutoff);
        if i < |prefix| {
          assert prefix[i] == events[i];
        }
      }
    }
  }

  /**
   * An admitted name's entry holds the admitting occurrence followed by every
   * later occurrence of the name, wherever it lies in time.
   */
  lemma {:induction false} AccumulateTimes(events: seq<BuildEvent>, cutoff: int, name: string, i: int)
    requires IsFirstAdmitting(events, name, cutoff, i)
    ensures name in Accumulate(events, cutoff)
    ensures Accumulate(events, cutoff)[name].allEventTimes == TimesOf(events[i..], name)
    decreases |events|
  {
    var prefix, event := events[..|events| - 1], events[|events| - 1];
    if i < |prefix| {
      assert IsFirstAdmitting(prefix, name, cutoff, i) by {
        assert prefix[i] == events[i];
        forall j | 0 <= j < i ensures !Admits(prefix[j], name, cutoff) {
          assert prefix[j] == events[j];
        }
      }
      AccumulateTimes(prefix, cutoff, name, i);
      assert events[i..][..|events[i..]| - 1] == prefix[i..];
    } else {
      forall j | 0 <= j < |prefix| ensures !Admits(prefix[j], name, cutoff) {
        assert prefix[j] == events[j];
      }
      AccumulateAdmits(prefix, cutoff, name);
      assert events[i..] == [event];
      assert events[i..][..0] == [];
    }
  }

  lemma {:induction false} TimesOfAppend(a: seq<BuildEvent>, b: seq<BuildEvent>, name: string)
    ensures TimesOf(a + b, name) == TimesOf(a, name) + TimesOf(b, name)
    decreases |b|
  {
    if b == [] {
      assert a + b == a;
    } else {
      assert (a + b)[..|a + b| - 1] == a + b[..|b| - 1];
      TimesOfAppend(a, b[..|b| - 1], name);
    }
  }

  lemma {:induction false} TimesOfAbsent(events: seq<BuildEvent>, name: string)
    requires forall j :: 0 <= j < |events| ==> events[j].targetName != name
    ensures TimesOf(events, name) == []
    decreases |events|
  {
    if events != [] {
      TimesOfAbsent(events[..|events| - 1], name);
    }
  }

  predicate NonDecreasingSeconds(events: seq<BuildEvent>) {
    forall i, j :: 0 <= i < j < |events| ==> events[i].second <= events[j].second
  }

  /** For a stream in time order, an admitted name's entry is every occurrence of it. */
  lemma OrderedStreamKeepsAll(events: seq<BuildEvent>, cutoff: int, name: string)
    requires NonDecreasingSeconds(events)
    requires name in Accumulate(events, cutoff)
    ensures Accumulate(events, cutoff)[name].allEventTimes == TimesOf(events, name)
  {
    AccumulateAdmits(events, cutoff, name);
    var i := FirstAdmitting(events, cutoff, name);
    AccumulateTimes(events, cutoff, name, i);
    NoEarlierOccurrence(events, cutoff, name, i);
    TimesOfAbsent(events[..i], name);
    assert events == events[..i] + events[i..];
    TimesOfAppend(events[..i], events[i..], name);
  }

  /** In a time-ordered stream nothing before the first admitting occurrence carries the name. */
  lemma NoEarlierOccurrence(events: seq<BuildEvent>, cutoff: int, name: string, i: int)
    requires NonDecreasingSeconds(events)
    requires IsFirstAdmitting(events, name, cutoff, i)
    ensures forall j :: 0 <= j < |events[..i]| ==> events[..i][j].targetName != name
  {
    forall j | 0 <= j < i ensures events[j].targetName != name {
      assert events[j].second <= events[i].second;
      assert !Admits(events[j], name, cutoff);
    }
  }

  /** The first admitting occurrence, when there is one. */
  lemma {:induction false} FirstAdmitting(events: seq<BuildEvent>, cutoff: int, name: string) returns (i: int)
    requires exists k :: 0 <= k < |events| && Admits(events[k], name, cutoff)
    ensures IsFirstAdmitting(events, name, cutoff, i)
    decreases |events|
  {
    if Admits(events[0], name, cutoff) {
      i := 0;
    } else {
      var k :| 0 <= k < |events| && Admits(events[k], name, cutoff);
      assert events[1..][k - 1] == events[k];
      var i' := FirstAdmitting(events[1..], cutoff, name);
      i := i' + 1;
      forall j | 0 < j < i ensures !Admits(events[j], name, cutoff) {
        assert events[j] == events[1..][j - 1];
      }
      assert events[i] == events[1..][i'];
    }
  }

  /** The aggregation loop of `summarize_replay`: a dictionary filled event by event. */
  method Aggregate(events: seq<BuildEvent>, cutoff: int) returns (actions: map<string, ActionEvents>, order: seq<string>)
    ensures actions == Accumulate(events, cutoff)
    ensures order == KeyOrder(events, cutoff)
  {
    actions, order := map[], [];
    var i := 0;
    while i < |events|
      invariant 0 <= i <= |events|
      invariant actions == Accumulate(events[..i], cutoff)
      invariant order == KeyOrder(events[..i], cutoff)
    {
      var event := events[i];
      assert events[..i + 1][..i] == events[..i];
      assert Accumulate(events[..i + 1], cutoff) == Step(actions, event, cutoff);
      ghost var before := actions;
      var accumulator := if event.targetName in actions then Some(actions[event.targetName]) else None;
      if accumulator.None? && event.second <= cutoff {
        accumulator := Some(ActionEvents(event.targetName, []));
        order := order + [event.targetName];
      }
      if accumulator.Some? {
        // the source appends to the list the dictionary already holds
        var entry := accumulator.value;
        assert entry.name == event.targetName;
        assert event.targetName !in before ==> entry.allEventTimes + [event.second] == [event.second];
        actions := actions[event.targetName := ActionEvents(entry.name, entry.allEventTimes + [event.second])];
      }
      assert actions == Step(before, event, cutoff);
      i := i + 1;
    }
    assert events[..i] == events;
  }

  // ---------------------------------------------------------------------
  // `sorted(times)` and the weight.

  predicate NonDecreasing(s: seq<int>) {
    forall i, j :: 0 <= i < j < |s| ==> s[i] <= s[j]
  }

  function InsertTime(t: int, s: seq<int>): (r: seq<int>)
    ensures multiset(r) == multiset(s) + multiset{t}
  {
    if s == [] then [t]
    else if t <= s[0] then [t] + s
    else
      assert s == [s[0]] + s[1..];
      [s[0]] + InsertTime(t, s[1..])
  }

  /** Inserting into an ascending list keeps it ascending. */
  lemma {:induction false} InsertTimeSorted(t: int, s: seq<int>)
    requires NonDecreasing(s)
    ensures NonDecreasing(InsertTime(t, s))
  {
    if s != [] && t > s[0] {
      var rest := InsertTime(t, s[1..]);
      InsertTimeSorted(t, s[1..]);
      var r := [s[0]] + rest;
      forall i, j | 0 <= i < j < |r| ensures r[i] <= r[j] {
        if i == 0 {
          assert r[j] in multiset(rest);
          if r[j] != t {
            assert r[j] in multiset(s[1..]);
            var k :| 0 <= k < |s[1..]| && s[1..][k] == r[j];
            assert s[k + 1] == r[j];
          }
        } else {
          assert r[i] == rest[i - 1] && r[j] == rest[j - 1];
        }
      }
    }
  }

  /** `sorted(times)`: the same times. */
  function SortTimes(s: seq<int>): (r: seq<int>)
    ensures multiset(r) == multiset(s)
    ensures |r| == |s|
  {
    if s == [] then []
    else
      assert s == [s[0]] + s[1..];
      InsertTime(s[0], SortTimes(s[1..]))
  }

  /** ... and ascending. */
  lemma {:induction false} SortTimesSorted(s: seq<int>)
    ensures NonDecreasing(SortTimes(s))
  {
    if s != [] {
      SortTimesSorted(s[1..]);
      InsertTimeSorted(s[0], SortTimes(s[1..]));
    }
  }

  /** `sum(0.5 ** ((time - start) / 120.0) for time in times)`. */
  function WeightSum(times: seq<int>, start: int, decay: int -> real): real {
    if times == [] then 0.0 else decay(times[0] - start) + WeightSum(times[1..], start, decay)
  }

  /** Every term lies in (0, 1] when no time precedes `start`, and the term for `start` itself is 1. */
  lemma {:induction false} WeightSumBounds(times: seq<int>, start: int, decay: int -> real)
    requires ValidDecay(decay)
    requires forall i :: 0 <= i < |times| ==> start <= times[i]
    ensures 0.0 <= WeightSum(times, start, decay) <= |times| as real
    ensures |times| > 0 && times[0] == start ==> 1.0 <= WeightSum(times, start, decay)
  {
    if times != [] {
      WeightSumBounds(times[1..], start, decay);
      assert 0.0 < decay(times[0] - start) <= 1.0;
    }
  }

  /** One rollup: the first (least) time and the decayed weight over the sorted times. */
  function Rollup(action: ActionEvents, decay: int -> real): ActionRollup
    requires |action.allEventTimes| > 0
  {
    var times := SortTimes(action.allEventTimes);
    assert |times| == |action.allEventTimes|;
    var start := times[0];
    ActionRollup(action.name, start, WeightSum(times, start, decay))
  }

  /**
   * A rollup's first time is the minimum of the action's times, and its
   * weight lies between 1 and the number of times.
   */
  lemma RollupFacts(action: ActionEvents, decay: int -> real)
    requires ValidDecay(decay)
    requires |action.allEventTimes| > 0
    ensures var r := Rollup(action, decay);
      && r.name == action.name
      && r.firstEventTime in action.allEventTimes
      && (forall t :: t in action.allEventTimes ==> r.firstEventTime <= t)
      && 1.0 <= r.eventWeight <= |action.allEventTimes| as real
  {
    var times := SortTimes(action.allEventTimes);
    var start := times[0];
    assert |times| == |action.allEventTimes|;
    SortTimesSorted(action.allEventTimes);
    assert forall t :: t in action.allEventTimes <==> t in times by {
      forall t ensures t in action.allEventTimes <==> t in times {
        assert t in action.allEventTimes <==> t in multiset(action.allEventTimes);
        assert t in times <==> t in multiset(times);
      }
    }
    assert start in times;
    forall t | t in action.allEventTimes ensures start <= t {
      var k :| 0 <= k < |times| && times[k] == t;
    }
    WeightSumBounds(times, start, decay);
  }

  // ---------------------------------------------------------------------
  // `action_rollups.sort(key=lambda x: x.name)`.

  predicate SortedByName(s: seq<ActionRollup>) {
    forall i, j :: 0 <= i < j < |s| ==> LexLe(s[i].name, s[j].name)
  }

  /** Names strictly ascending, hence distinct. */
  predicate StrictlyByName(s: seq<ActionRollup>) {
    forall i, j :: 0 <= i < j < |s| ==> LexLess(s[i].name, s[j].name)
  }

  function InsertByName(x: ActionRollup, s: seq<ActionRollup>): (r: seq<ActionRollup>)
    ensures multiset(r) == multiset(s) + multiset{x}
  {
    if s == [] then [x]
    else if LexLe(x.name, s[0].name) then [x] + s
    else
      assert s == [s[0]] + s[1..];
      [s[0]] + InsertByName(x, s[1..])
  }

  /** Inserting into a list sorted by name keeps it sorted. */
  lemma {:induction false} InsertByNameSorted(x: ActionRollup, s: seq<ActionRollup>)
    requires SortedByName(s)
    ensures SortedByName(InsertByName(x, s))
  {
    if s == [] {
    } else if LexLe(x.name, s[0].name) {
      var r := [x] + s;
      forall i, j | 0 <= i < j < |r| ensures LexLe(r[i].name, r[j].name) {
        assert r[j] == s[j - 1];
        if i == 0 {
          if j > 1 {
            LexLeTransitive(x.name, s[0].name, s[j - 1].name);
          }
        } else {
          assert r[i] == s[i - 1];
        }
      }
    } else {
      var tail := s[1..];
      InsertByNameSorted(x, tail);
      var rest := InsertByName(x, tail);
      LexLeTotal(x.name, s[0].name);
      var r := [s[0]] + rest;
      forall i, j | 0 <= i < j < |r| ensures LexLe(r[i].name, r[j].name) {
        assert r[j] == rest[j - 1];
        if i == 0 {
          assert rest[j - 1] in multiset(rest);
          if rest[j - 1] != x {
            assert rest[j - 1] in multiset(tail);
            var k :| 0 <= k < |tail| && tail[k] == rest[j - 1];
            assert s[k + 1] == rest[j - 1];
          }
        } else {
          assert r[i] == rest[i - 1];
        }
      }
    }
  }

  /** The in-place, stable sort by name, on values: the same rollups. */
  function SortByName(s: seq<ActionRollup>): (r: seq<ActionRollup>)
    ensures multiset(r) == multiset(s)
    ensures |r| == |s|
  {
    if s == [] then []
    else
      assert s == [s[0]] + s[1..];
      InsertByName(s[0], SortByName(s[1..]))
  }

  /** ... in name order. */
  lemma {:induction false} SortByNameSorted(s: seq<ActionRollup>)
    ensures SortedByName(SortByName(s))
  {
    if s != [] {
      SortByNameSorted(s[1..]);
      InsertByNameSorted(s[0], SortByName(s[1..]));
    }
  }

  predicate DistinctNames(s: seq<ActionRollup>) {
    forall i, j :: 0 <= i < j < |s| ==> s[i].name != s[j].name
  }

  /** With distinct names the sort leaves the names strictly ascending. */
  lemma {:induction false} SortByNameStrict(s: seq<ActionRollup>)
    requires DistinctNames(s)
    ensures StrictlyByName(SortByName(s))
  {
    if s != [] {
      var rest := s[1..];
      assert DistinctNames(rest);
      SortByNameStrict(rest);
      var sorted := SortByName(rest);
      forall j | 0 <= j < |sorted| ensures sorted[j].name != s[0].name {
        assert sorted[j] in multiset(rest);
        var k :| 0 <= k < |rest| && rest[k] == sorted[j];
        assert s[k + 1] == rest[k];
      }
      InsertByNameStrict(s[0], sorted);
    }
  }

  lemma {:induction false} InsertByNameStrict(x: ActionRollup, s: seq<ActionRollup>)
    requires StrictlyByName(s)
    requires forall j :: 0 <= j < |s| ==> s[j].name != x.name
    ensures StrictlyByName(InsertByName(x, s))
  {
    if s == [] {
    } else if LexLe(x.name, s[0].name) {
      forall j | 0 <= j < |s| ensures LexLess(x.name, s[j].name) {
        if j > 0 {
          LexLeTransitive(x.name, s[0].name, s[j].name);
        }
      }
      PrependStrict(x, s);
    } else {
      var tail := s[1..];
      InsertByNameStrict(x, tail);
      var rest := InsertByName(x, tail);
      LexLeTotal(x.name, s[0].name);
      forall j | 0 <= j < |rest| ensures LexLess(s[0].name, rest[j].name) {
        assert rest[j] in multiset(rest);
        if rest[j] != x {
          assert rest[j] in multiset(tail);
          var k :| 0 <= k < |tail| && tail[k] == rest[j];
          assert s[k + 1] == rest[j];
        }
      }
      PrependStrict(s[0], rest);
    }
  }

  lemma PrependStrict(x: ActionRollup, s: seq<ActionRollup>)
    requires StrictlyByName(s)
    requires forall j :: 0 <= j < |s| ==> LexLess(x.name, s[j].name)
    ensures StrictlyByName([x] + s)
  {
    var r := [x] + s;
    forall i, j | 0 <= i < j < |r| ensures LexLess(r[i].name, r[j].name) {
      assert r[j] == s[j - 1];
      if i > 0 {
        assert r[i] == s[i - 1];
      }
    }
  }

  // ---------------------------------------------------------------------
  // The rollup list as a whole.

  predicate HasName(s: seq<ActionRollup>, name: string) {
    exists i :: 0 <= i < |s| && s[i].name == name
  }

  /** `r` is the rollup of the entry its name has in `actions`. */
  predicate RolledUp(r: ActionRollup, actions: map<string, ActionEvents>, decay: int -> real) {
    && r.name in actions
    && |actions[r.name].allEventTimes| > 0
    && r == Rollup(actions[r.name], decay)
  }

  /**
   * `rollups` is the sorted rollup list of `actions`: one rollup per entry,
   * each computed from its entry, strictly ascending by name.
   */
  ghost predicate RollupsOf(rollups: seq<ActionRollup>, actions: map<string, ActionEvents>, decay: int -> real) {
    && StrictlyByName(rollups)
    && (forall i :: 0 <= i < |rollups| ==> RolledUp(rollups[i], actions, decay))
    && (forall n :: n in actions ==> HasName(rollups, n))
  }

  /**
   * The rest of `summarize_replay` after the event filter: aggregate, roll up
   * every entry in dictionary order, sort by name.
   */
  method SummarizeActions(events: seq<BuildEvent>, cutoff: int, decay: int -> real) returns (rollups: seq<ActionRollup>)
    ensures RollupsOf(rollups, Accumulate(events, cutoff), decay)
  {
    var actions, order := Aggregate(events, cutoff);
    KeyOrderIsKeys(events, cutoff);
    var actionRollups := RollupEntries(actions, order, decay);
    rollups := SortByName(actionRollups);
    SortedRollups(actionRollups, order, actions, decay);
  }

  /** `[rollup(action) for action in actions.values()]`, the values visited in `order`. */
  method RollupEntries(actions: map<string, ActionEvents>, order: seq<string>, decay: int -> real)
    returns (actionRollups: seq<ActionRollup>)
    requires forall n :: n in order ==> n in actions && |actions[n].allEventTimes| > 0
    ensures |actionRollups| == |order|
    ensures forall k :: 0 <= k < |order| ==> actionRollups[k] == Rollup(actions[order[k]], decay)
  {
    actionRollups := [];
    for i := 0 to |order|
      invariant |actionRollups| == i
      invariant forall k :: 0 <= k < i ==> actionRollups[k] == Rollup(actions[order[k]], decay)
    {
      var action := actions[order[i]];
      var times := SortTimes(action.allEventTimes);
      var start := times[0];
      actionRollups := actionRollups + [ActionRollup(action.name, start, WeightSum(times, start, decay))];
    }
  }

  /** Sorting the rollups made in key order gives the rollup list of the dictionary. */
  lemma SortedRollups(unsorted: seq<ActionRollup>, order: seq<string>, actions: map<string, ActionEvents>, decay: int -> real)
    requires Distinct(order)
    requires forall n :: n in order <==> n in actions
    requires forall n :: n in actions ==> actions[n].name == n && |actions[n].allEventTimes| > 0
    requires |unsorted| == |order|
    requires forall k :: 0 <= k < |order| ==> unsorted[k] == Rollup(actions[order[k]], decay)
    ensures RollupsOf(SortByName(unsorted), actions, decay)
  {
    var rollups := SortByName(unsorted);
    assert DistinctNames(unsorted) by {
      forall i, j | 0 <= i < j < |unsorted| ensures unsorted[i].name != unsorted[j].name {
        assert unsorted[i].name == order[i] && unsorted[j].name == order[j];
      }
    }
    SortByNameStrict(unsorted);
    forall i | 0 <= i < |rollups| ensures RolledUp(rollups[i], actions, decay) {
      assert rollups[i] in multiset(unsorted);
      MemberRolledUp(unsorted, order, actions, decay, rollups[i]);
    }
    forall n | n in actions ensures HasName(rollups, n) {
      var k :| 0 <= k < |order| && order[k] == n;
      assert unsorted[k] in multiset(rollups);
      var i :| 0 <= i < |rollups| && rollups[i] == unsorted[k];
      assert unsorted[k].name == order[k];
    }
  }

  lemma MemberRolledUp(unsorted: seq<ActionRollup>, order: seq<string>, actions: map<string, ActionEvents>, decay: int -> real, r: ActionRollup)
    requires forall n :: n in order <==> n in actions
    requires forall n :: n in actions ==> actions[n].name == n && |actions[n].allEventTimes| > 0
    requires |unsorted| == |order|
    requires forall k :: 0 <= k < |order| ==> unsorted[k] == Rollup(actions[order[k]], decay)
    requires r in unsorted
    ensures RolledUp(r, actions, decay)
  {
    var k :| 0 <= k < |unsorted| && unsorted[k] == r;
    assert r.name == order[k];
  }

  /** The rollup list of a dictionary is determined by it: the pipeline is deterministic. */
  lemma RollupsUnique(r1: seq<ActionRollup>, r2: seq<ActionRollup>, actions: map<string, ActionEvents>, decay: int -> real)
    requires RollupsOf(r1, actions, decay) && RollupsOf(r2, actions, decay)
    ensures r1 == r2
  {
    SameNamesSameList(r1, r2, actions, decay);
  }

  lemma {:induction false} SameNamesSameList(a: seq<ActionRollup>, b: seq<ActionRollup>, actions: map<string, ActionEvents>, decay: int -> real)
    requires StrictlyByName(a) && StrictlyByName(b)
    requires forall i :: 0 <= i < |a| ==> RolledUp(a[i], actions, decay)
    requires forall i :: 0 <= i < |b| ==> RolledUp(b[i], actions, decay)
    requires forall n :: HasName(a, n) <==> HasName(b, n)
    ensures a == b
    decreases |a|
  {
    if a == [] {
      if b != [] {
        assert HasName(b, b[0].name);
      }
    } else {
      assert HasName(a, a[0].name);
      assert HasName(b, b[0].name);
      SameFirstName(a, b);
      SameTailNames(a, b);
      SameNamesSameList(a[1..], b[1..], actions, decay);
      assert a == [a[0]] + a[1..] && b == [b[0]] + b[1..];
    }
  }

  lemma SameFirstName(a: seq<ActionRollup>, b: seq<ActionRollup>)
    requires StrictlyByName(a) && StrictlyByName(b)
    requires a != [] && b != []
    requires forall n :: HasName(a, n) <==> HasName(b, n)
    ensures a[0].name == b[0].name
  {
    assert HasName(a, a[0].name);
    assert HasName(b, b[0].name);
    var j :| 0 <= j < |b| && b[j].name == a[0].name;
    var k :| 0 <= k < |a| && a[k].name == b[0].name;
    if j > 0 && k > 0 {
      assert LexLess(b[0].name, b[j].name);
      assert LexLess(a[0].name, a[k].name);
      LexLeAntisymmetric(a[0].name, b[0].name);
    }
  }

  lemma SameTailNames(a: seq<ActionRollup>, b: seq<ActionRollup>)
    requires StrictlyByName(a) && StrictlyByName(b)
    requires a != [] && b != [] && a[0].name == b[0].name
    requires forall n :: HasName(a, n) <==> HasName(b, n)
    ensures forall n :: HasName(a[1..], n) <==> HasName(b[1..], n)
  {
    forall n | HasName(a[1..], n) ensures HasName(b[1..], n) {
      TailName(a, b, n);
    }
    forall n | HasName(b[1..], n) ensures HasName(a[1..], n) {
      TailName(b, a, n);
    }
  }

  lemma TailName(a: seq<ActionRollup>, b: seq<ActionRollup>, n: string)
    requires StrictlyByName(a) && StrictlyByName(b)
    requires a != [] && b != [] && a[0].name == b[0].name
    requires forall n :: HasName(a, n) <==> HasName(b, n)
    requires HasName(a[1..], n)
    ensures HasName(b[1..], n)
  {
    var p :| 0 <= p < |a[1..]| && a[1..][p].name == n;
    assert a[p + 1].name == n;
    assert LexLess(a[0].name, a[p + 1].name);
    assert HasName(a, n);
    var q :| 0 <= q < |b| && b[q].name == n;
    assert b[1..][q - 1] == b[q];
  }

  /**
   * What a summary's rollup list promises: exactly the admitted names, each
   * once and ascending, each with its least time as first time and a weight
   * between 1 and its number of times.
   */
  lemma RollupsOfFacts(rollups: seq<ActionRollup>, events: seq<BuildEvent>, cutoff: int, decay: int -> real)
    requires ValidDecay(decay)
    requires RollupsOf(rollups, Accumulate(events, cutoff), decay)
    ensures forall n :: HasName(rollups, n) <==> exists i :: 0 <= i < |events| && Admits(events[i], n, cutoff)
    ensures forall i :: 0 <= i < |rollups| ==>
      var times := Accumulate(events, cutoff)[rollups[i].name].allEventTimes;
      && rollups[i].firstEventTime in times
      && (forall t :: t in times ==> rollups[i].firstEventTime <= t)
      && 1.0 <= rollups[i].eventWeight <= |times| as real
  {
    var actions := Accumulate(events, cutoff);
    forall n ensures HasName(rollups, n) <==> exists i :: 0 <= i < |events| && Admits(events[i], n, cutoff) {
      AccumulateAdmits(events, cutoff, n);
      if HasName(rollups, n) {
        var i :| 0 <= i < |rollups| && rollups[i].name == n;
      }
    }
    forall i | 0 <= i < |rollups|
      ensures var times := actions[rollups[i].name].allEventTimes;
        && rollups[i].firstEventTime in times
        && (forall t :: t in times ==> rollups[i].firstEventTime <= t)
        && 1.0 <= rollups[i].eventWeight <= |times| as real
    {
      RollupFacts(actions[rollups[i].name], decay);
    }
  }

  // ---------------------------------------------------------------------
  // Worked cases.

  /** Three Marines at 10, 10 and 130 seconds: first time 10, weight 1 + 1 + 1/2. */
  lemma MarineScenario(decay: int -> real)
    requires ValidDecay(decay)
    ensures var events := [BuildEvent("Marine", 10), BuildEvent("Marine", 10), BuildEvent("Marine", 130)];
      var actions := Accumulate(events, 450);
      && actions == map["Marine" := ActionEvents("Marine", [10, 10, 130])]
      && Rollup(actions["Marine"], decay) == ActionRollup("Marine", 10, 2.5)
  {
    MarineEntry();
    MarineRollup(decay);
  }

  lemma MarineEntry()
    ensures Accumulate([BuildEvent("Marine", 10), BuildEvent("Marine", 10), BuildEvent("Marine", 130)], 450)
         == map["Marine" := ActionEvents("Marine", [10, 10, 130])]
  {
    var e10, e130 := BuildEvent("Marine", 10), BuildEvent("Marine", 130);
    assert [e10][..0] == [];
    assert Accumulate([], 450) == map[];
    assert [e10] != [] && [e10][|[e10]| - 1] == e10;
    var m1 := Accumulate([e10], 450);
    assert m1 == Step(map[], e10, 450);
    assert [e10, e10][..1] == [e10];
    var m2 := Accumulate([e10, e10], 450);
    assert m2 == Step(m1, e10, 450);
    assert [10] + [10] == [10, 10];
    assert [e10, e10, e130][..2] == [e10, e10];
    assert Accumulate([e10, e10, e130], 450) == Step(m2, e130, 450);
    assert [10, 10] + [130] == [10, 10, 130];
  }

  lemma MarineSorted()
    ensures SortTimes([10, 10, 130]) == [10, 10, 130]
  {
    assert [10, 10, 130][1..] == [10, 130];
    assert [10, 130][1..] == [130];
    assert [130][1..] == [];
    assert SortTimes([130]) == InsertTime(130, []) == [130];
    assert SortTimes([10, 130]) == InsertTime(10, [130]) == [10, 130];
  }

  lemma MarineWeight(decay: int -> real)
    requires ValidDecay(decay)
    ensures WeightSum([10, 10, 130], 10, decay) == 2.5
  {
    assert decay(0 + WEIGHT_DECAY_HALF_LIFE_SECONDS) == decay(0) / 2.0;
    assert [10, 10, 130][1..] == [10, 130];
    assert [10, 130][1..] == [130];
    assert [130][1..] == [];
    assert WeightSum([130], 10, decay) == 0.5;
    assert WeightSum([10, 130], 10, decay) == 1.5;
  }

  lemma MarineRollup(decay: int -> real)
    requires ValidDecay(decay)
    ensures Rollup(ActionEvents("Marine", [10, 10, 130]), decay) == ActionRollup("Marine", 10, 2.5)
  {
    MarineSorted();
    MarineWeight(decay);
  }

  /** The window bound is inclusive: a first Pylon at 450 s is admitted, one at 451 s is not. */
  lemma WindowBoundary()
    ensures "Pylon" in Accumulate([BuildEvent("Pylon", 450)], 450)
    ensures Accumulate([BuildEvent("Pylon", 451)], 450) == map[]
    ensures Accumulate([BuildEvent("Pylon", 500)], 450) == map[]
  {
    assert [BuildEvent("Pylon", 450)][..0] == [];
    assert [BuildEvent("Pylon", 451)][..0] == [];
    assert [BuildEvent("Pylon", 500)][..0] == [];
  }

  /**
   * An occurrence past the window leaves no trace: a Pylon at 500 s opens no entry,
   * so a later one at 20 s opens it afresh with only its own time.
   */
  lemma LateThenEarly()
    ensures Accumulate([BuildEvent("Pylon", 500), BuildEvent("Pylon", 20)], 450)
            == map["Pylon" := ActionEvents("Pylon", [20])]
  {
    var events := [BuildEvent("Pylon", 500), BuildEvent("Pylon", 20)];
    assert events[..1] == [BuildEvent("Pylon", 500)];
    assert events[..1][..0] == [];
  }
}
