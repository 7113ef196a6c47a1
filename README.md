# Lineup Lab core, in Dafny

This project models the logic that Lineup Lab, a football lineup maker, keeps outside its React
pages. It covers four parts:

- **The share-link codec** (`src/lib/lineup-utils.ts`). A lineup is renamed to short keys (the
  compact form) and serialised to JSON. It is then encoded as UTF-8, deflated, turned into a binary
  string, base64-encoded with `btoa` and switched to the URL-safe alphabet without padding.
  Decoding tries that pipeline backwards, then falls back to the older uncompressed format, then
  gives `null`. `btoa`, `atob` and the byte/character conversions are written out in
  `base64.dfy` and `binary_string.dfy`. Compression, UTF-8, JSON and `decodeURIComponent` are
  passed in as a `Primitives` value. The codec relies on two kinds of round trip. Inflate must
  undo deflate for every input; that is the predicate `LineupUtils.Lawful`. UTF-8 decoding
  must give back the JSON text of the lineup being shared, and the JSON codec its compact
  form; that is `LineupUtils.CompactJsonRoundTrips`. (`TextDecoder` drops a leading U+FEFF,
  so the UTF-8 law holds only for some texts, among them every JSON object.) `LineupUtils.HypothesesCanBeMet` builds
  collaborators that meet both for any lineup.
- **The role classifier** (`src/lib/player-utils.ts`). It upper-cases a role code and maps it
  to goalkeeper, defence, midfield or attack. It also holds the colour of each category.
- **The editor store** (`src/store/lineupStore.ts`). This is a class with the four persisted
  fields. Each setter has a one-field frame, and the two update actions loop over the players.
- **The export hook** (`src/hooks/useExport.ts`). It holds the file-name sanitiser, the option
  defaults and the two flags `isExporting` and `isExportOpen`. Rendering is a function
  parameter whose result is a data URL, or `None` when the renderer throws.

`wrappers.dfy` holds `Option`. `lineup_types.dfy` holds the player, pitch-colour and shareable
lineup records. `colors.dfy` holds the two palettes of `src/lib/colors.ts`.

## Model

| member | source | states |
|---|---|---|
| BinaryString.FromBytes | src/lib/lineup-utils.ts:83 | `String.fromCharCode(...bytes)` gives one character per byte, and its code is that byte; the result is a binary string |
| BinaryString.ToBytes | src/lib/lineup-utils.ts:94 | the byte array of a string has one entry per character: the character code modulo 256, as a `Uint8Array` stores it; it is applied only to the binary strings `atob` returns, where this is each character's code |
| BinaryString.ToBytesFromBytes | src/lib/lineup-utils.ts:83-94 | bytes turned into a binary string and back are unchanged |
| BinaryString.FromBytesToBytes | src/lib/lineup-utils.ts:83-94 | a string survives the trip through bytes if and only if every code is below 256 |
| Base64.DigitValue | src/lib/lineup-utils.ts:84 | the value of a base64 digit lies in 0..63 and is the inverse of the alphabet |
| Base64.EncodeDigits | src/lib/lineup-utils.ts:84 | `btoa`'s digits are all in the standard alphabet: 4 per 3 bytes, plus 2 or 3 for a final 1 or 2 bytes |
| Base64.Padding | src/lib/lineup-utils.ts:84 | at most two `=`, bringing the encoding to a multiple of four characters |
| Base64.Btoa | src/lib/lineup-utils.ts:84 | `btoa` succeeds exactly on binary strings and throws on any other |
| Base64.Atob | src/lib/lineup-utils.ts:93 | whatever `atob` returns is a binary string |
| Base64.DecodeEncodeDigits | src/lib/lineup-utils.ts:84-93 | decoding the digits of an encoding gives the bytes back, for every length |
| Base64.AtobBtoa | src/lib/lineup-utils.ts:84-93 | `atob(btoa(s)) == s` for every binary string `s` |
| Base64.EncodeIsPadded | src/lib/lineup-utils.ts:84 | every `btoa` result is standard padded base64 |
| Base64.AtobAlphabet | src/lib/lineup-utils.ts:93 | `atob` succeeds only on strings made of base64 digits, `=` and ASCII whitespace |
| LineupUtils.ToCompactPlayer | src/lib/lineup-utils.ts:39-44 | `i`, `t`, `l`, `r` copy id, top, left and role; `n` is present iff the name is truthy, and then equals it; `nu` is the number whenever it is defined |
| LineupUtils.ToCompact | src/lib/lineup-utils.ts:36-47 | the compact form has the same team, formation, colour and pitch colour, and the same players in the same order, each projected as above |
| LineupUtils.FromCompact | src/lib/lineup-utils.ts:50-63 | the long-key form has as many players as the compact one |
| LineupUtils.CompactRoundTrip | src/lib/lineup-utils.ts:36-63 | `fromCompact(toCompact(d))` is `d` with each empty name made absent; it equals `d` iff no name is empty |
| LineupUtils.CompactRoundTripFromCompact | src/lib/lineup-utils.ts:36-63 | `toCompact(fromCompact(c)) == c` iff no compact player carries an empty `n` |
| LineupUtils.ReplaceChar | src/lib/lineup-utils.ts:67 | a global single-character replace keeps the length and swaps exactly the matching characters |
| LineupUtils.ToUrlSafe | src/lib/lineup-utils.ts:66-67 | no `+`, no `/` and no trailing `=`; each kept character is the mapped input character; only `=` is cut from the end |
| LineupUtils.FromUrlSafe | src/lib/lineup-utils.ts:70-75 | the length is a multiple of four, with at most three `=` added after the input; `-` becomes `+` and `_` becomes `/` |
| LineupUtils.ToUrlSafeOfPadded | src/lib/lineup-utils.ts:66-67 | on padded base64, `toUrlSafe` maps the digits and drops the padding, and yields only URL-safe digits |
| LineupUtils.UrlSafeRoundTrip | src/lib/lineup-utils.ts:66-75 | `fromUrlSafe(toUrlSafe(s)) == s` for every standard padded base64 `s` |
| LineupUtils.UrlSafeRoundTripFromToken | src/lib/lineup-utils.ts:66-75 | `toUrlSafe(fromUrlSafe(t)) == t` for every token in the URL-safe alphabet |
| LineupUtils.HypothesesCanBeMet | src/lib/lineup-utils.ts:80-97 | for every lineup there are collaborators under which inflate undoes deflate for every input and the lineup's compact JSON survives UTF-8 and parses back, so the round-trip lemmas below are not vacuous |
| LineupUtils.EncodeLineupData | src/lib/lineup-utils.ts:80-85 | `btoa` never throws on the compressed bytes; the token is the URL-safe form of the padded base64 of the deflated UTF-8 JSON of the compact form, and uses only `A`-`Z`, `a`-`z`, `0`-`9`, `-` and `_` |
| LineupUtils.DecodeCompressed | src/lib/lineup-utils.ts:92-97 | the current-format path succeeds only on tokens made of the standard and URL-safe base64 digits, `=` and ASCII whitespace |
| LineupUtils.DecodeLegacy | src/lib/lineup-utils.ts:103-105 | the older-format path runs `atob` on the raw token, so it fails on any token holding `-` or `_` |
| LineupUtils.DecodeLineupData | src/lib/lineup-utils.ts:90-110 | a current-format success is returned as it is; otherwise the older-format result is returned; the result is `null` iff both paths fail |
| LineupUtils.EncodeDecodeRoundTrip | src/lib/lineup-utils.ts:80-97 | when inflate undoes deflate and the lineup's compact JSON survives UTF-8 and parses back, both the current-format path and `decodeLineupData` return `fromCompact(toCompact(d))` for the token of `d` |
| LineupUtils.EncodeDecodeExact | src/lib/lineup-utils.ts:80-97 | a lineup without empty names decodes back to itself |
| LineupUtils.LegacyTokenDecodes | src/lib/lineup-utils.ts:102-105 | a `btoa` of a URI-encoded JSON lineup, whose JSON parses back to it, decodes to that lineup when the current-format path fails on it |
| LineupUtils.LegacyRejectsUrlSafeDigits | src/lib/lineup-utils.ts:90-105 | the fallback runs `atob` on the raw token, so any token holding `-` or `_` fails there; for such a token `decodeLineupData` is the current-format result |
| LineupUtils.GenerateShareableUrl | src/lib/lineup-utils.ts:115-119 | the link is the origin (empty without a window), then `/lineups/share?data=`, then the lineup's token, which is URL-safe |
| LineupUtils.ShareableUrlDecodes | src/lib/lineup-utils.ts:115-119 | the token after the share route decodes to the lineup up to empty names |
| LineupUtils.GoalkeeperExample | src/lib/lineup-utils.ts:80-97 | a one-goalkeeper lineup with no name and no number comes back with both still absent |
| PlayerUtils.ToUpper | src/lib/player-utils.ts:12 | each character upper-cases to one to three characters, so the result is never shorter than the role and at most three times as long |
| PlayerUtils.ToUpperIdempotent | src/lib/player-utils.ts:12 | upper-casing twice is upper-casing once |
| PlayerUtils.GetRoleCategory | src/lib/player-utils.ts:11-17 | `GK` iff the upper-cased role is `GK`, `DEF` iff it is a defender code, `FWD` iff a forward code, `MID` iff none of these (the empty role included) |
| PlayerUtils.CategoryOfUpperCase | src/lib/player-utils.ts:12 | the category of a role is the category of its upper case |
| PlayerUtils.CaseVariantsAgree | src/lib/player-utils.ts:12 | two roles that differ only in the case of ASCII letters get the same category |
| PlayerUtils.AsciiGoalkeeper | src/lib/player-utils.ts:13 | an ASCII role is a goalkeeper iff it spells `GK` in any mix of cases |
| PlayerUtils.NonAsciiForwards | src/lib/player-utils.ts:12-15 | `ß`, `ﬆ` and `ſt` upper-case to a forward code and so classify as `FWD` |
| PlayerUtils.CategoryColorsComplete | src/lib/player-utils.ts:22-27 | every category has a colour, and no two categories share one |
| LineupStore.DefaultsAreFirstInPalette | src/store/lineupStore.ts:25-26 | the default player colour is the first palette entry (red), and the default pitch is "Classic Green" |
| LineupStore.WithPosition | src/store/lineupStore.ts:31-35 | same length, order, ids, roles, names and numbers; matching ids get the new top and left; other players are untouched |
| LineupStore.WithName | src/store/lineupStore.ts:36-40 | matching ids get the name and keep every other field; other players are untouched |
| LineupStore.WithPositionUnchanged | src/store/lineupStore.ts:31-35 | a move changes nothing iff every matching player already stands there; this covers an absent id |
| LineupStore.WithPositionLastWins | src/store/lineupStore.ts:31-35 | of two moves of the same id, the second decides |
| LineupStore.WithPositionIdempotent | src/store/lineupStore.ts:31-35 | repeating a move is the same as making it once |
| LineupStore.WithPositionCommutes | src/store/lineupStore.ts:31-35 | moves of different ids commute |
| LineupStore.WithNameAbsentAndLastWins | src/store/lineupStore.ts:36-40 | renaming an absent id changes nothing; of two renames of one id, the second decides |
| LineupStore.MoveAndRenameCommute | src/store/lineupStore.ts:31-40 | a move and a rename commute |
| LineupStore.Store.constructor | src/store/lineupStore.ts:23-26 | no players, the first formation, red players and the first pitch colour |
| LineupStore.Store.Partialize | src/store/lineupStore.ts:44-49 | the saved snapshot is exactly the four data fields |
| LineupStore.Store.SetPlayers | src/store/lineupStore.ts:27 | replaces the players; the snapshot differs only there |
| LineupStore.Store.SetSelectedFormation | src/store/lineupStore.ts:28 | replaces the formation name; the snapshot differs only there |
| LineupStore.Store.SetPlayerColor | src/store/lineupStore.ts:29 | replaces the player colour; the snapshot differs only there |
| LineupStore.Store.SetPitchColor | src/store/lineupStore.ts:30 | replaces the pitch colour; the snapshot differs only there |
| LineupStore.Store.UpdatePlayerPosition | src/store/lineupStore.ts:31-35 | the new players are `WithPosition` of the old ones; formation and colours are unchanged |
| LineupStore.Store.UpdatePlayerName | src/store/lineupStore.ts:36-40 | the new players are `WithName` of the old ones; formation and colours are unchanged |
| UseExport.SanitizeFilename | src/hooks/useExport.ts:41 | the sanitised name has no whitespace and is no longer than the name |
| UseExport.SanitizeUnchanged | src/hooks/useExport.ts:41 | a name is left as it is iff it has no whitespace |
| UseExport.SanitizeIdempotent | src/hooks/useExport.ts:41 | sanitising twice is sanitising once |
| UseExport.SanitizeRun | src/hooks/useExport.ts:41 | a whole leading whitespace run becomes one `_` |
| UseExport.SanitizeAppend | src/hooks/useExport.ts:41 | sanitising distributes over a concatenation that does not split a whitespace run, so non-whitespace characters keep their order |
| UseExport.SanitizeBetween | src/hooks/useExport.ts:41 | a maximal whitespace run between two parts becomes exactly one `_`, and the parts are sanitised on their own |
| UseExport.PngFileName | src/hooks/useExport.ts:53 | the PNG download name has no whitespace |
| UseExport.SvgFileName | src/hooks/useExport.ts:72 | the SVG download name has no whitespace |
| UseExport.FileNamesAreSanitized | src/hooks/useExport.ts:53-72 | both download names are fixed points of the sanitiser and begin with the sanitised user name |
| UseExport.ResolveOptions | src/hooks/useExport.ts:29-33 | a given option is used as given, and an omitted one takes its default |
| UseExport.NoOptionsGiveDefaults | src/hooks/useExport.ts:29-33 | with no options, the defaults are `#1a1a2e`, quality 1 and pixel ratio 2 |
| UseExport.ExportHook.constructor | src/hooks/useExport.ts:35-36 | both flags start false |
| UseExport.ExportHook.ToggleExportOpen | src/hooks/useExport.ts:38 | negates `isExportOpen` and touches nothing else, so toggling twice restores it |
| UseExport.ExportHook.CloseExport | src/hooks/useExport.ts:39 | `isExportOpen` is false afterwards, whatever it was, so closing is idempotent |
| UseExport.ExportHook.BeginExport | src/hooks/useExport.ts:45 | the busy flag is up while the render is pending; the menu is untouched |
| UseExport.ExportHook.FinishExport | src/hooks/useExport.ts:58-60 | after the render, successful or not, both flags are down |
| UseExport.ExportHook.HandleExportPng | src/hooks/useExport.ts:43-62 | with no element, nothing changes; otherwise the export begins, then finishes with both flags false, and a successful render downloads under the sanitised `.png` name with the data URL |
| UseExport.ExportHook.HandleExportSvg | src/hooks/useExport.ts:64-81 | as for PNG, with only the background colour passed to the renderer and the `.svg` name |

## Left out

- Compression, UTF-8, JSON and `decodeURIComponent` (`pako`, `TextEncoder`/`TextDecoder`, `JSON`) are library code. They are function fields of `LineupUtils.Primitives`. Their round trips are hypotheses (`Lawful` for the compressor, `CompactJsonRoundTrips` for the UTF-8 text and JSON of the lineup at hand); they are not proved of the real libraries.
- The unchecked `as CompactData` cast, and the `TypeError` that `fromCompact` throws on a badly shaped value, are folded into `parseCompact` returning `None`. A parsed value of the wrong shape that does not make `fromCompact` throw, such as `{"p":[],"pc":{}}`, gives the source a lineup with undefined fields; such results are not modelled.
- The unchecked `as ShareableLineupData` cast on the older-format path (src/lib/lineup-utils.ts:105) is folded into `parseLineup` returning a lineup or `None`. The source returns whatever `JSON.parse` gives, so the token `NQ==` yields the number 5 instead of `null`; such non-lineup results are not modelled.
- LineupUtils.FromUrlSafe: the padding is computed from the number of characters (code points), while the source counts UTF-16 code units. The two differ only on characters outside the Basic Multilingual Plane, on which `atob` fails either way.
- Numbers are unbounded `int` and `real`. `NaN`, infinities and the rounding of floating point are not modelled.
- `String.fromCharCode(...compressed)` can exceed the engine's argument limit on very large outputs. That `RangeError` is not modelled.
- `copyToClipboard` is an asynchronous clipboard call.
- The zustand `create`/`persist` middleware and the rehydration from local storage are not modelled; only the state and its reducers are.
- `src/lib/formations.ts` is not part of this model. The first formation's name is a constructor parameter of `Store`, and the store's players use the shared `Player` record.
- The DOM rendering by `toPng`/`toSvg`, the anchor element and its click, and console logging are left out. A render is a function parameter that succeeds with a data URL or fails.
- UI components and drag handling are outside this core.
- PlayerUtils.ToUpper, PlayerUtils.GetRoleCategory: `toUpperCase` is modelled only for ASCII letters, dotless i, long s, sharp s and the ligatures U+FB00 to U+FB06. Every other character is kept as it is. So `é` stays `é` where JavaScript gives `É`; the category is unaffected, since the table holds every character whose upper case is all ASCII, and no other character can help spell a role code. The upper-cased text itself differs.
- LineupUtils.LegacyTokenDecodes: it takes as a hypothesis that the current-format path fails on the older token. Nothing in a token marks its format, and whether inflate rejects the bytes is library behaviour.
- LineupUtils.DecodeLineupData: which malformed tokens make the library decoders fail (and so give `null`) is library behaviour. Only the failures of `atob` itself are stated, by `DecodeCompressed` and `DecodeLegacy`.
- LineupUtils.FromCompact: its own contract states only the player count. What it computes is stated by `CompactRoundTrip` and `CompactRoundTripFromCompact`.
- UseExport.ExportHook.HandleExportPng: the asynchronous interleaving is not modelled. The pending state, with `isExporting` true, is the contract of `BeginExport`; a caller cannot observe it between `BeginExport` and `FinishExport`. The same holds for `HandleExportSvg`.
- The claim that compressed links are shorter than the older format depends on the compressor, and is not stated.
