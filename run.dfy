/**
 * sc2creativity/run.py, the earlier single-machine pipeline: the same event
 * filter and aggregator with a 10-minute window, no race validation, and a
 * summary of both seats of every 1v1 replay.
 */
module Run {
  import opened Types
  import opened Replays
  import opened BuildEvents
  import opened Aggregation
  import Models

  /** Ten minutes: the initial window of this pipeline. */
  const MAX_INITIAL_TIME: int := 600

  /**
   * `s` is this pipeline's summary of seat `seat`: the two races exactly as
   * the parser reports them, and the sorted rollup list of the seat's build
   * events with the 600 s window.
   */
  ghost predicate IsLegacySummaryOf(s: Models.ReplaySummary, replay: Replay, seat: nat, decay: int -> real)
    requires seat < 2 && |replay.players| >= 2
  {
    && s.selfRace == replay.players[seat].playRace
    && s.opponentRace == replay.players[1 - seat].playRace
    && RollupsOf(s.actions, Accumulate(GetBuildEvents(replay.players[seat].events), MAX_INITIAL_TIME), decay)
  }

  /** `summarize_replay` of run.py. */
  method SummarizeReplay(replay: Replay, seat: nat, decay: int -> real) returns (summary: Models.ReplaySummary)
    requires seat < 2 && |replay.players| >= 2
    ensures IsLegacySummaryOf(summary, replay, seat, decay)
  {
    var otherPlayer := 1 - seat;
    var selfRace := replay.players[seat].playRace;
    var opponentRace := replay.players[otherPlayer].playRace;
    var actions := SummarizeActions(GetBuildEvents(replay.players[seat].events), MAX_INITIAL_TIME, decay);
    summary := Models.ReplaySummary(selfRace, opponentRace, actions);
  }

  /**
   * `handle_replay` without the printing: the summaries it prints, none for
   * anything but a 1v1 and otherwise one per seat, whatever the races.
   */
  method HandleReplay(replay: Replay, decay: int -> real) returns (printed: seq<Models.ReplaySummary>)
    requires replay.kind == "1v1" ==> |replay.players| >= 2
    ensures replay.kind != "1v1" ==> printed == []
    ensures replay.kind == "1v1" ==>
      && |printed| == 2
      && forall seat :: 0 <= seat < 2 ==> IsLegacySummaryOf(printed[seat], replay, seat, decay)
  {
    if replay.kind != "1v1" {
      return [];
    }
    printed := [];
    for player := 0 to 2
      invariant |printed| == player
      invariant forall seat :: 0 <= seat < player ==> IsLegacySummaryOf(printed[seat], replay, seat, decay)
    {
      var summary := SummarizeReplay(replay, player, decay);
      printed := printed + [summary];
    }
  }

  /**
   * What a summary of this pipeline promises: one rollup per name built in
   * the first 600 s, each with its least time and a weight between 1 and
   * its number of times; `events` is the seat's build events.
   */
  lemma LegacySummaryFacts(s: Models.ReplaySummary, replay: Replay, seat: nat, decay: int -> real, events: seq<BuildEvent>)
    requires ValidDecay(decay)
    requires seat < 2 && |replay.players| >= 2
    requires IsLegacySummaryOf(s, replay, seat, decay)
    requires events == GetBuildEvents(replay.players[seat].events)
    ensures forall n :: HasName(s.actions, n) <==> exists i :: 0 <= i < |events| && Admits(events[i], n, MAX_INITIAL_TIME)
    ensures forall i :: 0 <= i < |s.actions| ==>
      var times := Accumulate(events, MAX_INITIAL_TIME)[s.actions[i].name].allEventTimes;
      && s.actions[i].firstEventTime in times
      && (forall t :: t in times ==> s.actions[i].firstEventTime <= t)
      && 1.0 <= s.actions[i].eventWeight <= |times| as real
  {
    assert RollupsOf(s.actions, Accumulate(events, MAX_INITIAL_TIME), decay);
    RollupsOfFacts(s.actions, events, MAX_INITIAL_TIME, decay);
  }

  /** The wider window admits what the 450 s window refuses, with the bound inclusive: 600 in, 601 out. */
  lemma WindowsDiffer()
    ensures "Pylon" in Accumulate([BuildEvent("Pylon", 500)], MAX_INITIAL_TIME)
    ensures "Pylon" !in Accumulate([BuildEvent("Pylon", 500)], 450)
    ensures "Pylon" in Accumulate([BuildEvent("Pylon", 600)], MAX_INITIAL_TIME)
    ensures Accumulate([BuildEvent("Pylon", 601)], MAX_INITIAL_TIME) == map[]
  {
    assert [BuildEvent("Pylon", 500)][..0] == [];
    assert [BuildEvent("Pylon", 600)][..0] == [];
    assert [BuildEvent("Pylon", 601)][..0] == [];
  }
}
