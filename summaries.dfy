/**
 * sc2creativity/features/summaries.py around the shared filter and
 * aggregator: race validation, one summary per seat of a 1v1 replay under
 * the id `"{base}_{seat}"`, and the merge of a new batch of summaries into
 * the list already on disk.
 */
module Summaries {
  import opened Wrappers
  import opened Strings
  import opened Types
  import opened Replays
  import opened BuildEvents
  import opened Aggregation

  /** 7.5 minutes: the initial window of this pipeline. */
  const MAX_INITIAL_TIME: int := 450

  const RACES: seq<string> := ["terran", "protoss", "zerg"]

  // ---------------------------------------------------------------------
  // `_get_race`.

  /**
   * The player's race, lower-cased, when it equals one of the three playable
   * races ignoring case; None otherwise (the source prints a warning and returns None).
   */
  function GetRace(p: Player): (r: Option<string>)
    ensures r.Some? <==> exists k :: 0 <= k < |RACES| && EqualIgnoringCase(p.playRace, RACES[k])
    ensures r.Some? ==> r.value in RACES && Lower(p.playRace) == r.value
  {
    assert forall k :: 0 <= k < |RACES| ==> (Lower(p.playRace) == RACES[k] <==> EqualIgnoringCase(p.playRace, RACES[k])) by {
      forall k | 0 <= k < |RACES|
        ensures Lower(p.playRace) == RACES[k] <==> EqualIgnoringCase(p.playRace, RACES[k])
      {
        LowerIsIgnoringCase(p.playRace, RACES[k]);
      }
    }
    var race := Lower(p.playRace);
    if race in RACES then Some(race) else None
  }

  /** Validation ignores ASCII case: two spellings that lower alike are judged alike. */
  lemma GetRaceIgnoresCase(p: Player, q: Player)
    requires Lower(p.playRace) == Lower(q.playRace)
    ensures GetRace(p) == GetRace(q)
  {
  }

  /** A validated race validates again as itself. */
  lemma GetRaceIdempotent(p: Player)
    requires GetRace(p).Some?
    ensures GetRace(p.(playRace := GetRace(p).value)) == GetRace(p)
  {
    LowerIdempotent(p.playRace);
  }

  lemma GetRaceExamples(p: Player)
    ensures GetRace(p.(playRace := "Terran")) == Some("terran")
    ensures GetRace(p.(playRace := "ZERG")) == Some("zerg")
    ensures GetRace(p.(playRace := "Random")) == None
  {
    assert Lower("Terran") == "terran";
    assert Lower("ZERG") == "zerg";
    assert Lower("Random") == "random";
  }

  // ---------------------------------------------------------------------
  // `summarize_replay`.

  /** Both players of the first two seats have a valid race. */
  predicate BothRacesValid(replay: Replay)
    requires |replay.players| >= 2
  {
    GetRace(replay.players[0]).Some? && GetRace(replay.players[1]).Some?
  }

  /**
   * `s` is the summary of seat `seat` of `replay` under `replayId`: both
   * races valid, the players' names and lower-cased races, the replay's
   * start and duration, and the sorted rollup list of the seat's build
   * events with the 450 s window.
   */
  ghost predicate IsSummaryOf(s: ReplaySummary, replay: Replay, seat: nat, replayId: string, decay: int -> real)
    requires seat < 2 && |replay.players| >= 2
  {
    var me, them := replay.players[seat], replay.players[1 - seat];
    && GetRace(me).Some? && GetRace(them).Some?
    && s.replayId == replayId
    && s.startTime == replay.startTime
    && s.realDurationSeconds == replay.realDurationSeconds
    && s.self == ReplayPlayer(me.name, GetRace(me).value)
    && s.opponent == ReplayPlayer(them.name, GetRace(them).value)
    && RollupsOf(s.actions, Accumulate(GetBuildEvents(me.events), MAX_INITIAL_TIME), decay)
  }

  /**
   * The summary of one seat (`players[seat]` is the parser's `player[seat + 1]`),
   * or None when either player's race is not valid.
   */
  method SummarizeReplay(replay: Replay, seat: nat, replayId: string, decay: int -> real) returns (summary: Option<ReplaySummary>)
    requires seat < 2 && |replay.players| >= 2
    ensures summary.None? <==> GetRace(replay.players[seat]).None? || GetRace(replay.players[1 - seat]).None?
    ensures summary.Some? ==> IsSummaryOf(summary.value, replay, seat, replayId, decay)
  {
    var otherPlayer := 1 - seat;
    var selfRace := GetRace(replay.players[seat]);
    var opponentRace := GetRace(replay.players[otherPlayer]);
    if selfRace.None? || opponentRace.None? {
      return None;
    }
    var actions := SummarizeActions(GetBuildEvents(replay.players[seat].events), MAX_INITIAL_TIME, decay);
    summary := Some(ReplaySummary(
      replayId,
      replay.startTime,
      replay.realDurationSeconds,
      ReplayPlayer(replay.players[seat].name, selfRace.value),
      ReplayPlayer(replay.players[otherPlayer].name, opponentRace.value),
      actions));
  }

  /** A seat's summary is determined by the replay, the seat and the id. */
  lemma SummaryUnique(s1: ReplaySummary, s2: ReplaySummary, replay: Replay, seat: nat, replayId: string, decay: int -> real)
    requires seat < 2 && |replay.players| >= 2
    requires IsSummaryOf(s1, replay, seat, replayId, decay) && IsSummaryOf(s2, replay, seat, replayId, decay)
    ensures s1 == s2
  {
    var actions := Accumulate(GetBuildEvents(replay.players[seat].events), MAX_INITIAL_TIME);
    RollupsUnique(s1.actions, s2.actions, actions, decay);
  }

  /**
   * What a summary promises: valid lower-case races, and one rollup per name
   * the seat built inside the first 450 s, each with its least time and a
   * weight between 1 and its number of times.
   */
  lemma SummaryFacts(s: ReplaySummary, replay: Replay, seat: nat, replayId: string, decay: int -> real)
    requires ValidDecay(decay)
    requires seat < 2 && |replay.players| >= 2
    requires IsSummaryOf(s, replay, seat, replayId, decay)
    ensures s.self.race in RACES && s.opponent.race in RACES
    ensures var events := GetBuildEvents(replay.players[seat].events);
      forall n :: HasName(s.actions, n) <==> exists i :: 0 <= i < |events| && Admits(events[i], n, MAX_INITIAL_TIME)
    ensures var actions := Accumulate(GetBuildEvents(replay.players[seat].events), MAX_INITIAL_TIME);
      forall i :: 0 <= i < |s.actions| ==>
        var times := actions[s.actions[i].name].allEventTimes;
        && s.actions[i].firstEventTime in times
        && (forall t :: t in times ==> s.actions[i].firstEventTime <= t)
        && 1.0 <= s.actions[i].eventWeight <= |times| as real
  {
    var events := GetBuildEvents(replay.players[seat].events);
    assert RollupsOf(s.actions, Accumulate(events, MAX_INITIAL_TIME), decay);
    RollupsOfFacts(s.actions, events, MAX_INITIAL_TIME, decay);
  }

  // ---------------------------------------------------------------------
  // `summaries_for_replay`, given the replay's base id.

  /** `"{}_{}".format(replay_id, player)`. */
  function SeatId(baseId: string, seat: nat): (id: string)
    ensures StartsWith(id, baseId + "_")
    ensures forall i :: |baseId| + 1 <= i < |id| ==> IsDigit(id[i])
  {
    baseId + "_" + NatToString(seat)
  }

  /** The two seats of a replay get different ids. */
  lemma SeatIdsDistinct(baseId: string)
    ensures SeatId(baseId, 0) != SeatId(baseId, 1)
  {
    assert SeatId(baseId, 0)[|baseId| + 1] == '0';
    assert SeatId(baseId, 1)[|baseId| + 1] == '1';
  }

  /**
   * The summaries of one replay: none for anything but a 1v1; for a 1v1 both
   * seats or neither, since each seat checks both races, with ids
   * `base_0` and `base_1`.
   */
  method SummariesForReplay(replay: Replay, baseId: string, decay: int -> real) returns (summaries: seq<ReplaySummary>)
    requires replay.kind == "1v1" ==> |replay.players| >= 2
    ensures replay.kind != "1v1" ==> summaries == []
    ensures replay.kind == "1v1" && !BothRacesValid(replay) ==> summaries == []
    ensures replay.kind == "1v1" && BothRacesValid(replay) ==>
      && |summaries| == 2
      && forall seat :: 0 <= seat < 2 ==> IsSummaryOf(summaries[seat], replay, seat, SeatId(baseId, seat), decay)
  {
    if replay.kind != "1v1" {
      return [];
    }
    summaries := [];
    for player := 0 to 2
      invariant !BothRacesValid(replay) ==> summaries == []
      invariant BothRacesValid(replay) ==>
        && |summaries| == player
        && forall seat :: 0 <= seat < player ==> IsSummaryOf(summaries[seat], replay, seat, SeatId(baseId, seat), decay)
    {
      var summary := SummarizeReplay(replay, player, SeatId(baseId, player), decay);
      if summary.Some? {
        summaries := summaries + [summary.value];
      }
    }
  }

  // ---------------------------------------------------------------------
  // The player records as summaries.py builds them.

  /** The fields ReplayPlayer declares. */
  const PLAYER_FIELDS: set<string> := {"name", "race"}

  /**
   * The call `ReplayPlayer(name=..., race=..., <extra>=...)`: a named tuple
   * accepts only its declared fields, so any extra keyword is a TypeError
   * (None).
   */
  function CallReplayPlayer(extraKeywords: set<string>, name: string, race: string): (r: Option<ReplayPlayer>)
    requires extraKeywords !! PLAYER_FIELDS
    ensures r.Some? <==> extraKeywords == {}
    ensures r.Some? ==> r.value.name == name && r.value.race == race
  {
    if extraKeywords == {} then Some(ReplayPlayer(name, race)) else None
  }

  /** Either a value or the exception that escapes. */
  datatype Outcome = Returned(summary: Option<ReplaySummary>) | Raised(error: string)

  /**
   * `summarize_replay` exactly as summaries.py writes it, passing `winner=`
   * to ReplayPlayer: whenever both races are valid the call raises, so no
   * summary is ever returned.
   */
  method SummarizeReplayAsWritten(replay: Replay, seat: nat, replayId: string, decay: int -> real) returns (outcome: Outcome)
    requires seat < 2 && |replay.players| >= 2
    ensures BothRacesValid(replay) ==> outcome == Raised("TypeError")
    ensures !BothRacesValid(replay) ==> outcome == Returned(None)
  {
    var otherPlayer := 1 - seat;
    var selfRace := GetRace(replay.players[seat]);
    var opponentRace := GetRace(replay.players[otherPlayer]);
    if selfRace.None? || opponentRace.None? {
      return Returned(None);
    }
    var actions := SummarizeActions(GetBuildEvents(replay.players[seat].events), MAX_INITIAL_TIME, decay);
    var me := CallReplayPlayer({"winner"}, replay.players[seat].name, selfRace.value);
    var them := CallReplayPlayer({"winner"}, replay.players[otherPlayer].name, opponentRace.value);
    match (me, them) {
      case (Some(m), Some(t)) =>
        outcome := Returned(Some(ReplaySummary(replayId, replay.startTime, replay.realDurationSeconds, m, t, actions)));
      case _ =>
        outcome := Raised("TypeError");
    }
  }

  /** With the declared fields only, the same construction succeeds and is what SummarizeReplay stores. */
  lemma DeclaredFieldsAccepted(name: string, race: string)
    ensures CallReplayPlayer({}, name, race) == Some(ReplayPlayer(name, race))
    ensures CallReplayPlayer({"winner"}, name, race) == None
  {
  }

  // ---------------------------------------------------------------------
  // `write_race`: merge a batch into the previously written list.

  function Ids(s: seq<ReplaySummary>): set<string> {
    set x | x in s :: x.replayId
  }

  /** The summaries of `batch` whose id is not in `ignoreIds`, in batch order, repeats kept. */
  function Unseen(batch: seq<ReplaySummary>, ignoreIds: set<string>): seq<ReplaySummary>
    decreases |batch|
  {
    if batch == [] then []
    else
      var last := batch[|batch| - 1];
      Unseen(batch[..|batch| - 1], ignoreIds) + (if last.replayId in ignoreIds then [] else [last])
  }

  /** The list written when an old list exists: the old list, then the unseen new summaries. */
  function Merged(previous: seq<ReplaySummary>, batch: seq<ReplaySummary>): seq<ReplaySummary> {
    previous + Unseen(batch, Ids(previous))
  }

  /** Unseen is a filter: it keeps exactly the summaries whose id is not ignored. */
  lemma {:induction false} UnseenMembers(batch: seq<ReplaySummary>, ignoreIds: set<string>)
    ensures forall x :: x in Unseen(batch, ignoreIds) <==> x in batch && x.replayId !in ignoreIds
    decreases |batch|
  {
    if batch != [] {
      var prefix := batch[..|batch| - 1];
      UnseenMembers(prefix, ignoreIds);
      assert batch == prefix + [batch[|batch| - 1]];
    }
  }

  /** Unseen distributes over concatenation, so the batch's order is kept. */
  lemma {:induction false} UnseenAppend(a: seq<ReplaySummary>, b: seq<ReplaySummary>, ignoreIds: set<string>)
    ensures Unseen(a + b, ignoreIds) == Unseen(a, ignoreIds) + Unseen(b, ignoreIds)
    decreases |b|
  {
    if b == [] {
      assert a + b == a;
    } else {
      var b' := b[..|b| - 1];
      assert (a + b)[..|a + b| - 1] == a + b';
      assert (a + b)[|a + b| - 1] == b[|b| - 1];
      UnseenAppend(a, b', ignoreIds);
    }
  }

  /** When no id of the batch is ignored, the whole batch is kept, repeats included. */
  lemma {:induction false} UnseenAll(batch: seq<ReplaySummary>, ignoreIds: set<string>)
    requires forall x :: x in batch ==> x.replayId !in ignoreIds
    ensures Unseen(batch, ignoreIds) == batch
    decreases |batch|
  {
    if batch != [] {
      var prefix := batch[..|batch| - 1];
      UnseenAll(prefix, ignoreIds);
      assert batch == prefix + [batch[|batch| - 1]];
    }
  }

  /** When every id of the batch is ignored, nothing is kept. */
  lemma {:induction false} UnseenNone(batch: seq<ReplaySummary>, ignoreIds: set<string>)
    requires forall x :: x in batch ==> x.replayId in ignoreIds
    ensures Unseen(batch, ignoreIds) == []
    decreases |batch|
  {
    if batch != [] {
      UnseenNone(batch[..|batch| - 1], ignoreIds);
    }
  }

  /**
   * The merge keeps the old list as a prefix, adds exactly the new summaries
   * whose id was not already written, and its ids are the union of both.
   */
  lemma MergedFacts(previous: seq<ReplaySummary>, batch: seq<ReplaySummary>)
    ensures |Merged(previous, batch)| >= |previous|
    ensures Merged(previous, batch)[..|previous|] == previous
    ensures forall x :: x in Merged(previous, batch) <==> x in previous || (x in batch && x.replayId !in Ids(previous))
    ensures Ids(Merged(previous, batch)) == Ids(previous) + Ids(batch)
  {
    var merged := Merged(previous, batch);
    UnseenMembers(batch, Ids(previous));
    assert merged[..|previous|] == previous;
    forall id | id in Ids(previous) + Ids(batch) ensures id in Ids(merged) {
      if id !in Ids(previous) {
        var x :| x in batch && x.replayId == id;
        assert x in merged;
      } else {
        var x :| x in previous && x.replayId == id;
        assert x in merged;
      }
    }
  }

  /** Writing the same batch twice changes nothing the second time. */
  lemma MergedIdempotent(previous: seq<ReplaySummary>, batch: seq<ReplaySummary>)
    ensures Merged(Merged(previous, batch), batch) == Merged(previous, batch)
  {
    var merged := Merged(previous, batch);
    MergedFacts(previous, batch);
    forall x | x in batch ensures x.replayId in Ids(merged) {
      assert x.replayId in Ids(batch);
    }
    UnseenNone(batch, Ids(merged));
  }

  /** A batch of fresh ids is appended whole, duplicates within it included. */
  lemma MergedFreshBatch(previous: seq<ReplaySummary>, batch: seq<ReplaySummary>)
    requires Ids(previous) !! Ids(batch)
    ensures Merged(previous, batch) == previous + batch
  {
    forall x | x in batch ensures x.replayId !in Ids(previous) {
      assert x.replayId in Ids(batch);
    }
    UnseenAll(batch, Ids(previous));
  }

  predicate UniqueIds(s: seq<ReplaySummary>) {
    forall i, j :: 0 <= i < j < |s| ==> s[i].replayId != s[j].replayId
  }

  /** If both lists have unique ids, so does the merge. */
  lemma MergedUniqueIds(previous: seq<ReplaySummary>, batch: seq<ReplaySummary>)
    requires UniqueIds(previous) && UniqueIds(batch)
    ensures UniqueIds(Merged(previous, batch))
  {
    UnseenUniqueIds(batch, Ids(previous));
    var tail := Unseen(batch, Ids(previous));
    UnseenMembers(batch, Ids(previous));
    var merged := previous + tail;
    forall i, j | 0 <= i < j < |merged| ensures merged[i].replayId != merged[j].replayId {
      if j >= |previous| {
        assert merged[j] == tail[j - |previous|];
        assert tail[j - |previous|] in tail;
        if i < |previous| {
          assert merged[i] in previous;
        } else {
          assert merged[i] == tail[i - |previous|];
        }
      }
    }
  }

  lemma {:induction false} UnseenUniqueIds(batch: seq<ReplaySummary>, ignoreIds: set<string>)
    requires UniqueIds(batch)
    ensures UniqueIds(Unseen(batch, ignoreIds))
    decreases |batch|
  {
    if batch != [] {
      var prefix, last := batch[..|batch| - 1], batch[|batch| - 1];
      UnseenUniqueIds(prefix, ignoreIds);
      UnseenMembers(prefix, ignoreIds);
      var front := Unseen(prefix, ignoreIds);
      if last.replayId !in ignoreIds {
        var r := front + [last];
        forall i, j | 0 <= i < j < |r| ensures r[i].replayId != r[j].replayId {
          if j == |front| {
            assert r[i] in prefix;
            var k :| 0 <= k < |prefix| && prefix[k] == r[i];
            assert batch[k] == r[i];
          } else {
            assert r[i] == front[i] && r[j] == front[j];
          }
        }
      }
    }
  }

  /** A list of summaries that the merge appends to in place. */
  class SummaryList {
    var items: seq<ReplaySummary>

    constructor (items: seq<ReplaySummary>)
      ensures this.items == items
    {
      this.items := items;
    }

    method Append(s: ReplaySummary)
      modifies this
      ensures items == old(items) + [s]
    {
      items := items + [s];
    }
  }

  /**
   * The list `write_race` writes. With no old list (missing or unreadable
   * file) it is the batch itself; otherwise the old list object, extended in
   * place with the new summaries whose id it did not yet hold.
   */
  method WriteRace(oldSummaries: SummaryList?, summaries: SummaryList) returns (allSummaries: SummaryList)
    modifies oldSummaries
    ensures oldSummaries == null ==> allSummaries == summaries && summaries.items == old(summaries.items)
    ensures oldSummaries != null ==>
      allSummaries == oldSummaries && allSummaries.items == Merged(old(oldSummaries.items), old(summaries.items))
  {
    allSummaries := summaries;
    if oldSummaries != null {
      allSummaries := oldSummaries;
      var batch := summaries.items;
      var ignoreIds := Ids(allSummaries.items);
      ghost var previous := allSummaries.items;
      var i := 0;
      while i < |batch|
        invariant 0 <= i <= |batch|
        invariant allSummaries.items == previous + Unseen(batch[..i], ignoreIds)
      {
        assert batch[..i + 1][..i] == batch[..i];
        if batch[i].replayId !in ignoreIds {
          allSummaries.Append(batch[i]);
        }
        i := i + 1;
      }
      assert batch[..i] == batch;
    }
  }
}
