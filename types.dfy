/**
 * The records that flow through the summariser (sc2creativity/types.py).
 * All of them are immutable named tuples in the source, so they are
 * datatypes here.
 */
module Types {

  /** A `datetime` start time, kept opaque: the model only copies it. */
  datatype Timestamp = Timestamp(value: int)

  /** One production or research command: the canonical action name and the game second. */
  datatype BuildEvent = BuildEvent(targetName: string, second: int)

  /** The growing list of times of one admitted action name. */
  datatype ActionEvents = ActionEvents(name: string, allEventTimes: seq<int>)

  /** The per-action result: first time and decayed commitment weight. */
  datatype ActionRollup = ActionRollup(name: string, firstEventTime: int, eventWeight: real)

  /** A player's identity as types.py declares it: a name and a race, nothing else. */
  datatype ReplayPlayer = ReplayPlayer(name: string, race: string)

  datatype ReplaySummary = ReplaySummary(
    replayId: string,
    startTime: Timestamp,
    realDurationSeconds: int,
    self: ReplayPlayer,
    opponent: ReplayPlayer,
    actions: seq<ActionRollup>)
}
