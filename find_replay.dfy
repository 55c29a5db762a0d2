/**
 * The one piece of sc2creativity/models/find_replay.py that touches the
 * summaries: a summary id `"{base}_{seat}"` is taken apart again with
 * `split('_')` and `int(...)`.
 */
module FindReplay {
  import opened Wrappers
  import opened Strings
  import Summaries

  /** The replay a summary id points at: the base id and the seat. */
  datatype ReplayRef = ReplayRef(baseId: string, playerId: nat)

  /**
   * `replay_id, player_id = replay_id.split('_')` then `int(player_id)`.
   * None stands for the ValueError Python raises when there are not exactly
   * two parts or the second is not a number.
   */
  function ParseReplayId(id: string): (r: Option<ReplayRef>)
    ensures r.Some? ==> '_' !in r.value.baseId
    ensures r.Some? ==> exists digits :: id == r.value.baseId + "_" + digits && ParseNat(digits) == Some(r.value.playerId)
  {
    var parts := Split(id, '_');
    SplitThenJoin(id, '_');
    if |parts| != 2 then None
    else
      assert Join(parts, '_') == parts[0] + ['_'] + parts[1];
      match ParseNat(parts[1])
      case None => None
      case Some(n) => Some(ReplayRef(parts[0], n))
  }

  /** Decimal digits never contain the separator. */
  lemma DigitsHaveNoUnderscore(n: nat)
    ensures '_' !in NatToString(n)
  {
    var digits := NatToString(n);
    forall i | 0 <= i < |digits| ensures digits[i] != '_' {
      assert IsDigit(digits[i]);
    }
  }

  /** The id a seat's summary gets is read back as that replay and seat, for a base id without '_'. */
  lemma ParseSeatId(baseId: string, seat: nat)
    requires '_' !in baseId
    ensures ParseReplayId(Summaries.SeatId(baseId, seat)) == Some(ReplayRef(baseId, seat))
  {
    var digits := NatToString(seat);
    DigitsHaveNoUnderscore(seat);
    assert Summaries.SeatId(baseId, seat) == baseId + ['_'] + digits;
    SplitJoin(baseId, digits, '_');
    ParseNatToString(seat);
  }

  /** A base id holding '_' splits into too many parts, and the lookup fails. */
  lemma UnderscoreInBaseFails(baseId: string, seat: nat)
    requires '_' in baseId
    ensures ParseReplayId(Summaries.SeatId(baseId, seat)) == None
  {
    var id := Summaries.SeatId(baseId, seat);
    var parts := Split(id, '_');
    SplitThenJoin(id, '_');
    JoinCount(parts, '_');
    assert multiset(id) == multiset(baseId) + multiset{'_'} + multiset(NatToString(seat));
    assert '_' in multiset(baseId);
    assert |parts| >= 3;
  }
}
