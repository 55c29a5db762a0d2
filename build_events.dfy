/**
 * The event filter `get_build_events`, which summaries.py and run.py define
 * identically: keep command events whose ability name starts with a
 * production or research prefix, strip the prefix, drop banned names.
 */
module BuildEvents {
  import opened Wrappers
  import opened Strings
  import opened Types
  import opened Replays

  const PREFIXES: seq<string> := ["Train", "Build", "Morph", "Upgrade", "Research"]

  const BANNED_ABILITIES: set<string> := {"CreepTumor", "ToOverseer"}

  /** The inner loop over PREFIXES for one ability name: each matching, non-banned prefix yields. */
  function PrefixYields(abilityName: string, second: int, prefixes: seq<string>): seq<BuildEvent>
  {
    if prefixes == [] then []
    else
      var prefix := prefixes[0];
      var here :=
        if StartsWith(abilityName, prefix) && abilityName[|prefix|..] !in BANNED_ABILITIES
        then [BuildEvent(abilityName[|prefix|..], second)]
        else [];
      here + PrefixYields(abilityName, second, prefixes[1..])
  }

  /** What the generator yields for one event of the stream. */
  function EventYields(e: Event): seq<BuildEvent> {
    match e
    case Other => []
    case Command(hasAbility, abilityName, second) =>
      if !hasAbility then []
      else match abilityName
        case None => []
        case Some(name) => if name == "" then [] else PrefixYields(name, second, PREFIXES)
  }

  /** `get_build_events`: everything the generator yields, in stream order. */
  function GetBuildEvents(events: seq<Event>): seq<BuildEvent> {
    if events == [] then [] else EventYields(events[0]) + GetBuildEvents(events[1..])
  }

  /** `b` is the build event the source makes from `e` by stripping `prefix`. */
  predicate ProducedWith(e: Event, b: BuildEvent, prefix: string) {
    && e.Command?
    && e.hasAbility
    && e.abilityName.Some?
    && e.abilityName.value != ""
    && StartsWith(e.abilityName.value, prefix)
    && b.targetName == e.abilityName.value[|prefix|..]
    && b.targetName !in BANNED_ABILITIES
    && b.second == e.second
  }

  /** `e` gives rise to build event `b` through one of the five prefixes. */
  predicate Produces(e: Event, b: BuildEvent) {
    exists i :: 0 <= i < |PREFIXES| && ProducedWith(e, b, PREFIXES[i])
  }

  /** `e` is a command the filter keeps. */
  predicate Qualifies(e: Event) {
    && e.Command?
    && e.hasAbility
    && e.abilityName.Some?
    && e.abilityName.value != ""
    && exists i :: 0 <= i < |PREFIXES| && StartsWith(e.abilityName.value, PREFIXES[i])
                                   && e.abilityName.value[|PREFIXES[i]|..] !in BANNED_ABILITIES
  }

  /** No two of the prefixes can both start a name: their first letters differ. */
  lemma PrefixesExclusive(name: string, i: int, j: int)
    requires 0 <= i < |PREFIXES| && 0 <= j < |PREFIXES|
    requires StartsWith(name, PREFIXES[i]) && StartsWith(name, PREFIXES[j])
    ensures i == j
  {
    assert name[0] == PREFIXES[i][0];
    assert name[0] == PREFIXES[j][0];
  }

  lemma {:induction false} PrefixYieldsFromSuffix(name: string, second: int, k: nat)
    requires k <= |PREFIXES|
    ensures forall b :: b in PrefixYields(name, second, PREFIXES[k..]) ==>
      exists i :: k <= i < |PREFIXES| && StartsWith(name, PREFIXES[i]) && b == BuildEvent(name[|PREFIXES[i]|..], second)
                                      && b.targetName !in BANNED_ABILITIES
    ensures |PrefixYields(name, second, PREFIXES[k..])| <= 1
    ensures (forall i :: k <= i < |PREFIXES| ==> !StartsWith(name, PREFIXES[i]))
            ==> PrefixYields(name, second, PREFIXES[k..]) == []
    ensures (exists i :: k <= i < |PREFIXES| && StartsWith(name, PREFIXES[i]) && name[|PREFIXES[i]|..] !in BANNED_ABILITIES)
            ==> |PrefixYields(name, second, PREFIXES[k..])| == 1
    decreases |PREFIXES| - k
  {
    if k < |PREFIXES| {
      assert PREFIXES[k..][1..] == PREFIXES[k + 1..];
      PrefixYieldsFromSuffix(name, second, k + 1);
      if StartsWith(name, PREFIXES[k]) {
        forall i | k + 1 <= i < |PREFIXES| ensures !StartsWith(name, PREFIXES[i]) {
          if StartsWith(name, PREFIXES[i]) {
            PrefixesExclusive(name, k, i);
          }
        }
        assert PrefixYields(name, second, PREFIXES[k + 1..]) == [];
      }
    }
  }

  /**
   * Each event yields at most one build event, exactly when it qualifies, and
   * what it yields is its ability name with the matching prefix stripped.
   */
  lemma EventYieldsAtMostOne(e: Event)
    ensures |EventYields(e)| <= 1
    ensures |EventYields(e)| == 1 <==> Qualifies(e)
    ensures forall b :: b in EventYields(e) ==> Produces(e, b)
  {
    if e.Command? && e.hasAbility && e.abilityName.Some? && e.abilityName.value != "" {
      var name := e.abilityName.value;
      assert PREFIXES[0..] == PREFIXES;
      PrefixYieldsFromSuffix(name, e.second, 0);
      assert EventYields(e) == PrefixYields(name, e.second, PREFIXES);
      forall b | b in EventYields(e) ensures Produces(e, b) {
        var i :| 0 <= i < |PREFIXES| && StartsWith(name, PREFIXES[i]) && b == BuildEvent(name[|PREFIXES[i]|..], e.second)
                  && b.targetName !in BANNED_ABILITIES;
        assert ProducedWith(e, b, PREFIXES[i]);
      }
      if |EventYields(e)| == 1 {
        var b := EventYields(e)[0];
        assert b in EventYields(e);
        var i :| 0 <= i < |PREFIXES| && StartsWith(name, PREFIXES[i]) && b == BuildEvent(name[|PREFIXES[i]|..], e.second)
                  && b.targetName !in BANNED_ABILITIES;
        assert Qualifies(e);
      }
    }
  }

  /** The indices, from `i` on, of the events that yield: where each output element comes from. */
  ghost function OriginsFrom(events: seq<Event>, i: nat): seq<nat>
    requires i <= |events|
    decreases |events| - i
  {
    if i == |events| then []
    else (if EventYields(events[i]) == [] then [] else [i]) + OriginsFrom(events, i + 1)
  }

  ghost function Origins(events: seq<Event>): seq<nat> {
    OriginsFrom(events, 0)
  }

  lemma {:induction false} OriginsLength(events: seq<Event>, i: nat)
    requires i <= |events|
    ensures |OriginsFrom(events, i)| == |GetBuildEvents(events[i..])| <= |events| - i
    decreases |events| - i
  {
    if i < |events| {
      OriginsLength(events, i + 1);
      EventYieldsAtMostOne(events[i]);
      assert events[i..][1..] == events[i + 1..];
    }
  }

  /** Indices strictly increasing, all in [lo, hi). */
  predicate IncreasingIn(o: seq<nat>, lo: int, hi: int) {
    && (forall k :: 0 <= k < |o| ==> lo <= o[k] < hi)
    && (forall k, l :: 0 <= k < l < |o| ==> o[k] < o[l])
  }

  lemma PrependIncreasing(x: nat, o: seq<nat>, hi: int)
    requires IncreasingIn(o, x + 1, hi) && x < hi
    ensures IncreasingIn([x] + o, x, hi)
  {
    var r := [x] + o;
    forall k, l | 0 <= k < l < |r| ensures r[k] < r[l] {
      assert r[l] == o[l - 1];
      if k > 0 {
        assert r[k] == o[k - 1];
      }
    }
  }

  lemma {:induction false} OriginsIncreasing(events: seq<Event>, i: nat)
    requires i <= |events|
    ensures IncreasingIn(OriginsFrom(events, i), i, |events|)
    decreases |events| - i
  {
    if i < |events| {
      OriginsIncreasing(events, i + 1);
      var ro := OriginsFrom(events, i + 1);
      if EventYields(events[i]) != [] {
        PrependIncreasing(i, ro, |events|);
      }
    }
  }

  lemma {:induction false} OriginsYield(events: seq<Event>, i: nat)
    requires i <= |events|
    ensures |OriginsFrom(events, i)| == |GetBuildEvents(events[i..])|
    ensures forall k :: 0 <= k < |OriginsFrom(events, i)| ==>
      OriginsFrom(events, i)[k] < |events| && GetBuildEvents(events[i..])[k] in EventYields(events[OriginsFrom(events, i)[k]])
    decreases |events| - i
  {
    OriginsLength(events, i);
    OriginsIncreasing(events, i);
    if i < |events| {
      OriginsYield(events, i + 1);
      EventYieldsAtMostOne(events[i]);
      assert events[i..][1..] == events[i + 1..];
      var head := if EventYields(events[i]) == [] then [] else [i];
      var o, ro := OriginsFrom(events, i), OriginsFrom(events, i + 1);
      var out, rout := GetBuildEvents(events[i..]), GetBuildEvents(events[i + 1..]);
      assert o == head + ro;
      assert out == EventYields(events[i]) + rout;
      forall k | 0 <= k < |o| ensures out[k] in EventYields(events[o[k]]) {
        if k >= |head| {
          assert o[k] == ro[k - |head|];
          assert out[k] == rout[k - |head|];
        }
      }
    }
  }

  lemma {:induction false} OriginsComplete(events: seq<Event>, i: nat)
    requires i <= |events|
    ensures forall j :: i <= j < |events| && Qualifies(events[j]) ==> j in OriginsFrom(events, i)
    decreases |events| - i
  {
    if i < |events| {
      OriginsComplete(events, i + 1);
      EventYieldsAtMostOne(events[i]);
    }
  }

  /**
   * The filter keeps stream order and invents nothing: output element k comes
   * from the event at index Origins(events)[k], those indices are strictly
   * increasing, and every qualifying event is among them.
   */
  lemma FilterKeepsOrder(events: seq<Event>)
    ensures var out, o := GetBuildEvents(events), Origins(events);
      && |o| == |out| <= |events|
      && (forall k :: 0 <= k < |o| ==> o[k] < |events| && Produces(events[o[k]], out[k]))
      && (forall k, l :: 0 <= k < l < |o| ==> o[k] < o[l])
      && (forall i :: 0 <= i < |events| && Qualifies(events[i]) ==> i in o)
  {
    OriginsLength(events, 0);
    OriginsIncreasing(events, 0);
    OriginsYield(events, 0);
    OriginsComplete(events, 0);
    assert events[0..] == events;
    var out, o := GetBuildEvents(events), Origins(events);
    forall k | 0 <= k < |o| ensures Produces(events[o[k]], out[k]) {
      EventYieldsAtMostOne(events[o[k]]);
      assert out[k] in EventYields(events[o[k]]);
    }
  }

  /** No build event ever carries a banned name. */
  lemma {:induction false} NoBannedNames(events: seq<Event>)
    ensures forall b :: b in GetBuildEvents(events) ==> b.targetName !in BANNED_ABILITIES
  {
    FilterKeepsOrder(events);
    forall b | b in GetBuildEvents(events) ensures b.targetName !in BANNED_ABILITIES {
      var out := GetBuildEvents(events);
      var k :| 0 <= k < |out| && out[k] == b;
      var o := Origins(events);
      var i :| 0 <= i < |PREFIXES| && ProducedWith(events[o[k]], b, PREFIXES[i]);
    }
  }

  /** A creep tumour command never yields, whatever its prefix. */
  lemma CreepTumorNeverYields(prefix: string, second: int)
    requires prefix in PREFIXES
    ensures EventYields(Command(true, Some(prefix + "CreepTumor"), second)) == []
  {
    var e := Command(true, Some(prefix + "CreepTumor"), second);
    var name := prefix + "CreepTumor";
    var p :| 0 <= p < |PREFIXES| && PREFIXES[p] == prefix;
    assert name[..|prefix|] == prefix;
    forall i | 0 <= i < |PREFIXES| && StartsWith(name, PREFIXES[i])
      ensures name[|PREFIXES[i]|..] in BANNED_ABILITIES
    {
      PrefixesExclusive(name, p, i);
      assert name[|prefix|..] == "CreepTumor";
    }
    EventYieldsAtMostOne(e);
  }
}
