/**
 * The lineup records shared by the editor store and the share-link codec: a player on the
 * pitch, a pitch colour and the whole shareable lineup. Optional fields use `Option`, with
 * `None` for JavaScript's `undefined`.
 */
module LineupTypes {
  import opened Wrappers

  /** A player: identity, position in percent of the pitch, role code, optional name and number. */
  datatype Player = Player(
    id: int,
    top: real,
    left: real,
    role: string,
    name: Option<string>,
    number: Option<int>)

  /** A pitch style: a label (`labelText`, since `label` is a Dafny keyword) and two CSS class lists, opaque to the codec. */
  datatype PitchColor = PitchColor(labelText: string, value: string, previewClass: string)

  /** Everything a share link carries. */
  datatype ShareableLineupData = ShareableLineupData(
    teamName: string,
    formationName: string,
    players: seq<Player>,
    playerColor: string,
    pitchColor: PitchColor)
}
