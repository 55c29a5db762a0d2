/**
 * The older record set of sc2creativity/models.py, used by run.py. Its
 * BuildEvent, ActionEvents and ActionRollup are field for field those of
 * types.py and are shared with module Types; only the summary differs.
 */
module Models {
  import Types

  /** A summary of the earlier pipeline: both races as given, and the rollups. */
  datatype ReplaySummary = ReplaySummary(
    selfRace: string,
    opponentRace: string,
    actions: seq<Types.ActionRollup>)
}
