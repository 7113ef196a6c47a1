/**
 * The lineup editor's store: the players on the pitch, the chosen formation and the two colours.
 * Each setter overwrites one field; the two update actions rewrite every player with a given id.
 * The part saved to local storage is the snapshot `Partialize` returns.
 */
module LineupStore {
  import opened Wrappers
  import opened LineupTypes
  import Colors

  /** The initial player colour, red. */
  const DefaultPlayerColor: string := "#ef4444"

  /** The default colours are the first entries of their palettes. */
  lemma DefaultsAreFirstInPalette()
    ensures DefaultPlayerColor == Colors.PlayerColors[0].hex
    ensures Colors.PitchColors[0].labelText == "Classic Green"
  {
  }

  // ---------------------------------------------------------------------------------------
  // The two update actions on the player list

  /** `pl` at (`top`, `left`) if its id is `id`, otherwise `pl` itself. */
  function MoveIfMatching(pl: Player, id: int, top: real, left: real): Player {
    if pl.id == id then pl.(top := top, left := left) else pl
  }

  /** `pl` named `name` if its id is `id`, otherwise `pl` itself. */
  function RenameIfMatching(pl: Player, id: int, name: string): Player {
    if pl.id == id then pl.(name := Some(name)) else pl
  }

  /**
   * The players after `updatePlayerPosition(id, top, left)`: same length, same order, same ids,
   * roles, names and numbers; every player with id `id` at the new position; every other
   * player untouched.
   */
  function WithPosition(players: seq<Player>, id: int, top: real, left: real): (r: seq<Player>)
    ensures |r| == |players|
    ensures forall k | 0 <= k < |r| ::
              r[k].id == players[k].id && r[k].role == players[k].role &&
              r[k].name == players[k].name && r[k].number == players[k].number
    ensures forall k | 0 <= k < |r| && players[k].id == id :: r[k].top == top && r[k].left == left
    ensures forall k | 0 <= k < |r| && players[k].id != id :: r[k] == players[k]
  {
    seq(|players|, k requires 0 <= k < |players| => MoveIfMatching(players[k], id, top, left))
  }

  /**
   * The players after `updatePlayerName(id, name)`: every player with id `id` gets the name and
   * keeps every other field; every other player is untouched.
   */
  function WithName(players: seq<Player>, id: int, name: string): (r: seq<Player>)
    ensures |r| == |players|
    ensures forall k | 0 <= k < |r| && players[k].id == id :: r[k] == players[k].(name := Some(name))
    ensures forall k | 0 <= k < |r| && players[k].id != id :: r[k] == players[k]
  {
    seq(|players|, k requires 0 <= k < |players| => RenameIfMatching(players[k], id, name))
  }

  /**
   * Moving changes nothing exactly when every player with that id already stands there; in
   * particular a move for an id no player has is a no-op.
   */
  lemma WithPositionUnchanged(players: seq<Player>, id: int, top: real, left: real)
    ensures WithPosition(players, id, top, left) == players <==>
            forall k | 0 <= k < |players| && players[k].id == id :: players[k].top == top && players[k].left == left
  {
    var r := WithPosition(players, id, top, left);
    if forall k | 0 <= k < |players| && players[k].id == id :: players[k].top == top && players[k].left == left {
      assert forall k | 0 <= k < |r| :: r[k] == players[k];
    }
  }

  /** Of two moves of the same id the later one wins; so a repeated move is a no-op. */
  lemma WithPositionLastWins(players: seq<Player>, id: int, top0: real, left0: real, top: real, left: real)
    ensures WithPosition(WithPosition(players, id, top0, left0), id, top, left) == WithPosition(players, id, top, left)
  {
    var a := WithPosition(WithPosition(players, id, top0, left0), id, top, left);
    var b := WithPosition(players, id, top, left);
    assert forall k | 0 <= k < |a| :: a[k] == b[k];
  }

  lemma WithPositionIdempotent(players: seq<Player>, id: int, top: real, left: real)
    ensures WithPosition(WithPosition(players, id, top, left), id, top, left) == WithPosition(players, id, top, left)
  {
    WithPositionLastWins(players, id, top, left, top, left);
  }

  /** Moves of two different ids do not interfere. */
  lemma WithPositionCommutes(players: seq<Player>, id0: int, top0: real, left0: real, id1: int, top1: real, left1: real)
    requires id0 != id1
    ensures WithPosition(WithPosition(players, id0, top0, left0), id1, top1, left1)
         == WithPosition(WithPosition(players, id1, top1, left1), id0, top0, left0)
  {
    var a := WithPosition(WithPosition(players, id0, top0, left0), id1, top1, left1);
    var b := WithPosition(WithPosition(players, id1, top1, left1), id0, top0, left0);
    assert forall k | 0 <= k < |a| :: a[k] == b[k];
  }

  /** Renaming an id no player has changes nothing; of two renames of one id the later wins. */
  lemma WithNameAbsentAndLastWins(players: seq<Player>, id: int, name0: string, name: string)
    ensures (forall k | 0 <= k < |players| :: players[k].id != id) ==> WithName(players, id, name) == players
    ensures WithName(WithName(players, id, name0), id, name) == WithName(players, id, name)
  {
    var a := WithName(WithName(players, id, name0), id, name);
    var b := WithName(players, id, name);
    assert forall k | 0 <= k < |a| :: a[k] == b[k];
    if forall k | 0 <= k < |players| :: players[k].id != id {
      assert forall k | 0 <= k < |b| :: b[k] == players[k];
    }
  }

  /** A move and a rename touch different fields, so their order does not matter. */
  lemma MoveAndRenameCommute(players: seq<Player>, id0: int, top: real, left: real, id1: int, name: string)
    ensures WithName(WithPosition(players, id0, top, left), id1, name)
         == WithPosition(WithName(players, id1, name), id0, top, left)
  {
    var a := WithName(WithPosition(players, id0, top, left), id1, name);
    var b := WithPosition(WithName(players, id1, name), id0, top, left);
    assert forall k | 0 <= k < |a| :: a[k] == b[k];
  }

  // ---------------------------------------------------------------------------------------
  // The store

  /** What is saved to local storage: exactly these four fields. */
  datatype PersistedState = PersistedState(
    selectedFormationName: string,
    players: seq<Player>,
    playerColor: string,
    pitchColor: PitchColor)

  class Store {
    var players: seq<Player>
    var selectedFormationName: string
    var playerColor: string
    var pitchColor: PitchColor

    /**
     * The initial state: no players, the first formation (whose name is a parameter here),
     * red players and the "Classic Green" pitch.
     */
    constructor (firstFormationName: string)
      ensures players == [] && selectedFormationName == firstFormationName
      ensures playerColor == DefaultPlayerColor && pitchColor == Colors.PitchColors[0]
    {
      players := [];
      selectedFormationName := firstFormationName;
      playerColor := DefaultPlayerColor;
      pitchColor := Colors.PitchColors[0];
    }

    /** The saved snapshot: the four data fields and nothing else. */
    function Partialize(): (s: PersistedState)
      reads this
      ensures s.selectedFormationName == selectedFormationName && s.players == players
      ensures s.playerColor == playerColor && s.pitchColor == pitchColor
    {
      PersistedState(selectedFormationName, players, playerColor, pitchColor)
    }

    method SetPlayers(newPlayers: seq<Player>)
      modifies this`players
      ensures players == newPlayers
      ensures Partialize() == old(Partialize()).(players := newPlayers)
    {
      players := newPlayers;
    }

    method SetSelectedFormation(formationName: string)
      modifies this`selectedFormationName
      ensures selectedFormationName == formationName
      ensures Partialize() == old(Partialize()).(selectedFormationName := formationName)
    {
      selectedFormationName := formationName;
    }

    method SetPlayerColor(color: string)
      modifies this`playerColor
      ensures playerColor == color
      ensures Partialize() == old(Partialize()).(playerColor := color)
    {
      playerColor := color;
    }

    method SetPitchColor(color: PitchColor)
      modifies this`pitchColor
      ensures pitchColor == color
      ensures Partialize() == old(Partialize()).(pitchColor := color)
    {
      pitchColor := color;
    }

    /** Builds the new player list entry by entry and replaces the old one. */
    method UpdatePlayerPosition(id: int, top: real, left: real)
      modifies this`players
      ensures players == WithPosition(old(players), id, top, left)
      ensures Partialize() == old(Partialize()).(players := WithPosition(old(players), id, top, left))
    {
      var updated: seq<Player> := [];
      var k := 0;
      while k < |players|
        invariant 0 <= k <= |players|
        invariant |updated| == k
        invariant forall j | 0 <= j < k :: updated[j] == MoveIfMatching(players[j], id, top, left)
      {
        updated := updated + [MoveIfMatching(players[k], id, top, left)];
        k := k + 1;
      }
      assert updated == WithPosition(players, id, top, left);
      players := updated;
    }

    /** Builds the new player list entry by entry and replaces the old one. */
    method UpdatePlayerName(id: int, name: string)
      modifies this`players
      ensures players == WithName(old(players), id, name)
      ensures Partialize() == old(Partialize()).(players := WithName(old(players), id, name))
    {
      var updated: seq<Player> := [];
      var k := 0;
      while k < |players|
        invariant 0 <= k <= |players|
        invariant |updated| == k
        invariant forall j | 0 <= j < k :: updated[j] == RenameIfMatching(players[j], id, name)
      {
        updated := updated + [RenameIfMatching(players[k], id, name)];
        k := k + 1;
      }
      assert updated == WithName(players, id, name);
      players := updated;
    }
  }
}
