/**
 * How the two stages meet: every summary the summariser writes is one the
 * feature table can hold, its races among the flag columns and its action
 * names distinct.
 */
module Pipeline {
  import opened Types
  import opened Aggregation
  import Summaries
  import Dataframes
  import Replays
  import BuildEvents

  /** A summary of either seat has valid races and distinct action names. */
  lemma SummaryFitsTable(s: ReplaySummary, replay: Replays.Replay, seat: nat, replayId: string, decay: int -> real)
    requires ValidDecay(decay)
    requires seat < 2 && |replay.players| >= 2
    requires Summaries.IsSummaryOf(s, replay, seat, replayId, decay)
    ensures s.self.race in Dataframes.RACES && s.opponent.race in Dataframes.RACES
    ensures DistinctNames(s.actions)
  {
    Summaries.SummaryFacts(s, replay, seat, replayId, decay);
    var events := BuildEvents.GetBuildEvents(replay.players[seat].events);
    assert RollupsOf(s.actions, Accumulate(events, Summaries.MAX_INITIAL_TIME), decay);
  }
}
