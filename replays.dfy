/**
 * What the replay parser hands to the summariser. Parsing itself is not
 * modelled: a replay is given as plain values.
 */
module Replays {
  import opened Wrappers
  import Types

  /**
   * An entry of a player's event stream: a command event (with or without an
   * ability, whose name may be missing) or any other kind of event.
   */
  datatype Event =
    | Command(hasAbility: bool, abilityName: Option<string>, second: int)
    | Other

  /** One participant: display name, race as chosen, result and own events. */
  datatype Player = Player(name: string, playRace: string, result: string, events: seq<Event>)

  /**
   * A replay. `players[k]` is the parser's `player[k + 1]`; `realDurationSeconds`
   * is the already truncated `int(real_length.total_seconds())`.
   */
  datatype Replay = Replay(
    kind: string,
    players: seq<Player>,
    startTime: Types.Timestamp,
    realDurationSeconds: int)
}
