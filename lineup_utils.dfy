/**
 * Share links for a lineup.
 *
 * A lineup travels in the `data` query parameter of `/lineups/share`. Encoding renames the keys
 * to one or two letters (the compact form), serialises to JSON, encodes as UTF-8, compresses
 * with zlib deflate, turns the bytes into a binary string, applies `btoa` and switches to the
 * URL- and filename-safe base64 alphabet without padding (section 5 of RFC 4648). Decoding
 * tries that pipeline backwards and, when any step fails, falls back to the older format: plain
 * standard base64 of a URI-encoded JSON text with the long key names.
 *
 * The compressor, UTF-8 and JSON codecs and `decodeURIComponent` are library or platform code:
 * they are passed in as a `Primitives` value. What the codec relies on them for is the
 * predicate `Lawful` (decompression, for every input) and `CompactJsonRoundTrips` (UTF-8 and
 * JSON, for the text of the lineup being shared);
 * `HypothesesCanBeMet` shows both can hold together.
 */
module LineupUtils {
  import opened Wrappers
  import opened BinaryString
  import opened Base64
  import opened LineupTypes

  // ---------------------------------------------------------------------------------------
  // Compact form

  /** A player with short keys: `i` id, `t` top, `l` left, `r` role, `n` name, `nu` number. */
  datatype CompactPlayer = CompactPlayer(i: int, t: real, l: real, r: string, n: Option<string>, nu: Option<int>)

  /** A pitch colour with short keys: `l` label, `v` value, `p` preview class. */
  datatype CompactPitch = CompactPitch(l: string, v: string, p: string)

  /** A lineup with short keys: `t` team, `f` formation, `p` players, `c` colour, `pc` pitch. */
  datatype CompactData = CompactData(t: string, f: string, p: seq<CompactPlayer>, c: string, pc: CompactPitch)

  /** JavaScript truthiness of an optional string: present and not empty. */
  predicate IsTruthy(s: Option<string>) {
    s.Some? && s.value != ""
  }

  function ToCompactPlayer(pl: Player): (cp: CompactPlayer)
    ensures cp.i == pl.id && cp.t == pl.top && cp.l == pl.left && cp.r == pl.role
    ensures cp.n.Some? <==> IsTruthy(pl.name)
    ensures cp.n.Some? ==> cp.n == pl.name
    ensures cp.nu == pl.number
  {
    CompactPlayer(pl.id, pl.top, pl.left, pl.role, if IsTruthy(pl.name) then pl.name else None, pl.number)
  }

  /**
   * The compact form: same players in the same order with the same id, position and role; a
   * name only when it is truthy, so an empty name is dropped; a number whenever it is defined,
   * so `0` is kept.
   */
  function ToCompact(data: ShareableLineupData): (c: CompactData)
    ensures c.t == data.teamName && c.f == data.formationName && c.c == data.playerColor
    ensures c.pc == CompactPitch(data.pitchColor.labelText, data.pitchColor.value, data.pitchColor.previewClass)
    ensures |c.p| == |data.players|
    ensures forall k | 0 <= k < |c.p| ::
              c.p[k].i == data.players[k].id && c.p[k].t == data.players[k].top &&
              c.p[k].l == data.players[k].left && c.p[k].r == data.players[k].role
    ensures forall k | 0 <= k < |c.p| :: c.p[k].n.Some? <==> IsTruthy(data.players[k].name)
    ensures forall k | 0 <= k < |c.p| :: c.p[k].n.Some? ==> c.p[k].n == data.players[k].name
    ensures forall k | 0 <= k < |c.p| :: c.p[k].nu == data.players[k].number
  {
    var ps := data.players;
    CompactData(
      data.teamName,
      data.formationName,
      seq(|ps|, k requires 0 <= k < |ps| => ToCompactPlayer(ps[k])),
      data.playerColor,
      CompactPitch(data.pitchColor.labelText, data.pitchColor.value, data.pitchColor.previewClass))
  }

  function FromCompactPlayer(cp: CompactPlayer): Player {
    Player(cp.i, cp.t, cp.l, cp.r, cp.n, cp.nu)
  }

  /** The long-key form of a compact lineup; absent `n` and `nu` become absent name and number. */
  function FromCompact(c: CompactData): (data: ShareableLineupData)
    ensures |data.players| == |c.p|
  {
    ShareableLineupData(
      c.t,
      c.f,
      seq(|c.p|, k requires 0 <= k < |c.p| => FromCompactPlayer(c.p[k])),
      c.c,
      PitchColor(c.pc.l, c.pc.v, c.pc.p))
  }

  /** `pl` with an empty name made absent: what a share link can carry of it. */
  function WithoutEmptyName(pl: Player): Player {
    if pl.name == Some("") then pl.(name := None) else pl
  }

  /** No player has an explicitly empty name. */
  predicate NoEmptyNames(data: ShareableLineupData) {
    forall k | 0 <= k < |data.players| :: data.players[k].name != Some("")
  }

  /**
   * The compact form loses exactly the empty names: going there and back gives the lineup
   * with every empty name made absent, and gives the lineup itself exactly when no name is
   * empty.
   */
  lemma CompactRoundTrip(data: ShareableLineupData)
    ensures var back := FromCompact(ToCompact(data));
            |back.players| == |data.players| &&
            (forall k | 0 <= k < |data.players| :: back.players[k] == WithoutEmptyName(data.players[k])) &&
            back.teamName == data.teamName && back.formationName == data.formationName &&
            back.playerColor == data.playerColor && back.pitchColor == data.pitchColor
    ensures FromCompact(ToCompact(data)) == data <==> NoEmptyNames(data)
  {
    var back := FromCompact(ToCompact(data));
    if NoEmptyNames(data) {
      assert back.players == data.players;
    }
    if back == data {
      forall k | 0 <= k < |data.players| ensures data.players[k].name != Some("") {
        assert back.players[k] == WithoutEmptyName(data.players[k]);
      }
    }
  }

  /** The other way round: a compact lineup survives the trip unless it carries an empty name. */
  lemma CompactRoundTripFromCompact(c: CompactData)
    ensures ToCompact(FromCompact(c)) == c <==> forall k | 0 <= k < |c.p| :: c.p[k].n != Some("")
  {
    var back := ToCompact(FromCompact(c));
    if forall k | 0 <= k < |c.p| :: c.p[k].n != Some("") {
      assert back.p == c.p;
    }
    if back == c {
      forall k | 0 <= k < |c.p| ensures c.p[k].n != Some("") {
        assert back.p[k] == c.p[k];
      }
    }
  }

  // ---------------------------------------------------------------------------------------
  // URL-safe base64

  /** `s.replace(/from/g, to)` for a single character. */
  function ReplaceChar(s: string, from: char, to: char): (r: string)
    ensures |r| == |s|
    ensures forall i | 0 <= i < |s| :: r[i] == if s[i] == from then to else s[i]
  {
    seq(|s|, i requires 0 <= i < |s| => if s[i] == from then to else s[i])
  }

  /** `s.replace(/=+$/, "")`: the trailing run of `=` removed. */
  function TrimPadding(s: string): string {
    s[..PaddingStart(s)]
  }

  /** `n` copies of `c`. */
  function Repeat(c: char, n: nat): (r: string)
    ensures |r| == n && forall i | 0 <= i < n :: r[i] == c
  {
    seq(n, i => c)
  }

  /** Standard base64 to the URL-safe alphabet: `+` to `-`, `/` to `_`, trailing `=` dropped. */
  function ToUrlSafe(b64: string): (r: string)
    ensures forall i | 0 <= i < |r| :: r[i] != '+' && r[i] != '/'
    ensures |r| == 0 || r[|r| - 1] != '='
    ensures |r| <= |b64|
    ensures forall i | 0 <= i < |r| :: r[i] == if b64[i] == '+' then '-' else if b64[i] == '/' then '_' else b64[i]
    ensures forall i | |r| <= i < |b64| :: b64[i] == '='
  {
    TrimPadding(ReplaceChar(ReplaceChar(b64, '+', '-'), '/', '_'))
  }

  /**
   * URL-safe back to standard: `-` to `+`, `_` to `/`, then `=` up to a multiple of four
   * characters (at most three).
   */
  function FromUrlSafe(urlSafe: string): (r: string)
    ensures |r| % 4 == 0 && |urlSafe| <= |r| <= |urlSafe| + 3
    ensures forall i | 0 <= i < |urlSafe| ::
              r[i] == if urlSafe[i] == '-' then '+' else if urlSafe[i] == '_' then '/' else urlSafe[i]
    ensures forall i | |urlSafe| <= i < |r| :: r[i] == '='
  {
    var b64 := ReplaceChar(ReplaceChar(urlSafe, '-', '+'), '_', '/');
    var pad := 4 - |b64| % 4;
    if pad < 4 then b64 + Repeat('=', pad) else b64
  }

  /** A character of the URL- and filename-safe alphabet (section 5 of RFC 4648). */
  predicate IsUrlSafeDigit(c: char) {
    ('A' <= c <= 'Z') || ('a' <= c <= 'z') || ('0' <= c <= '9') || c == '-' || c == '_'
  }

  predicate IsUrlSafeToken(s: string) {
    forall i | 0 <= i < |s| :: IsUrlSafeDigit(s[i])
  }

  /** `toUrlSafe` maps standard padded base64 into the URL-safe alphabet. */
  lemma ToUrlSafeOfPadded(s: string)
    requires IsPaddedBase64(s)
    ensures ToUrlSafe(s) == ReplaceChar(ReplaceChar(s[..PaddingStart(s)], '+', '-'), '/', '_')
    ensures IsUrlSafeToken(ToUrlSafe(s))
  {
    var k := PaddingStart(s);
    var mapped := ReplaceChar(ReplaceChar(s, '+', '-'), '/', '_');
    assert forall i | k <= i < |s| :: mapped[i] == '=';
    assert k > 0 ==> IsDigit(s[..k][k - 1]);
    PaddingStartUnique(mapped, k);
    assert mapped[..k] == ReplaceChar(ReplaceChar(s[..k], '+', '-'), '/', '_');
    assert forall i | 0 <= i < k :: IsDigit(s[..k][i]);
  }

  /** Two multiples of four less than four apart are equal. */
  lemma MultiplesOfFourClose(a: int, b: int)
    requires a % 4 == 0 && b % 4 == 0 && -3 <= a - b <= 3
    ensures a == b
  {
    var qa, qb := a / 4, b / 4;
    assert a == 4 * qa && b == 4 * qb;
    assert -1 < qa - qb < 1;
  }

  /** `fromUrlSafe` undoes `toUrlSafe` on every standard padded base64 text. */
  lemma UrlSafeRoundTrip(s: string)
    requires IsPaddedBase64(s)
    ensures FromUrlSafe(ToUrlSafe(s)) == s
  {
    ToUrlSafeOfPadded(s);
    var k := PaddingStart(s);
    var t := ToUrlSafe(s);
    assert |t| == k && |s| - k <= 2 && |s| % 4 == 0;
    var r := FromUrlSafe(t);
    MultiplesOfFourClose(|r|, |s|);
    forall i | 0 <= i < |s| ensures r[i] == s[i] {
      if i < k {
        assert IsDigit(s[..k][i]);
      }
    }
  }

  /** `toUrlSafe` undoes `fromUrlSafe` on every token in the URL-safe alphabet. */
  lemma UrlSafeRoundTripFromToken(token: string)
    requires IsUrlSafeToken(token)
    ensures ToUrlSafe(FromUrlSafe(token)) == token
  {
    var b64 := FromUrlSafe(token);
    var mapped := ReplaceChar(ReplaceChar(b64, '+', '-'), '/', '_');
    PaddingStartUnique(mapped, |token|);
  }

  // ---------------------------------------------------------------------------------------
  // Library and platform collaborators

  /**
   * The calls the codec makes into code outside this model. A result of `None` stands for
   * a call that throws.
   * - `deflate`, `inflate`: zlib compression (RFC 1950 around RFC 1951);
   * - `utf8Encode`, `utf8Decode`: `TextEncoder` and `TextDecoder`;
   * - `stringifyCompact`: `JSON.stringify` of a compact lineup;
   * - `parseCompact`: `JSON.parse` read as a compact lineup, `None` also where the parsed value
   *   does not have the compact shape and reading it would throw;
   * - `decodeUriComponent`: `decodeURIComponent`;
   * - `parseLineup`: `JSON.parse` read as a long-key lineup.
   */
  datatype Primitives = Primitives(
    deflate: seq<byte> -> seq<byte>,
    inflate: seq<byte> -> Option<seq<byte>>,
    utf8Encode: string -> seq<byte>,
    utf8Decode: seq<byte> -> string,
    stringifyCompact: CompactData -> string,
    parseCompact: string -> Option<CompactData>,
    decodeUriComponent: string -> Option<string>,
    parseLineup: string -> Option<ShareableLineupData>)

  /** What the codec relies on for every input: decompression undoes compression. */
  ghost predicate Lawful(p: Primitives) {
    forall bytes :: p.inflate(p.deflate(bytes)) == Some(bytes)
  }

  /**
   * What the codec relies on for the lineup at hand: the JSON of its compact form survives
   * UTF-8 encoding and decoding, and `JSON.parse` gives the compact form back. Neither holds
   * for every input: `TextDecoder` drops a leading U+FEFF, and coordinates are real numbers,
   * which no map into strings keeps apart. The JSON of an object starts with `{`, so the first
   * does not bite here.
   */
  predicate CompactJsonRoundTrips(p: Primitives, data: ShareableLineupData) {
    var json := p.stringifyCompact(ToCompact(data));
    p.utf8Decode(p.utf8Encode(json)) == json && p.parseCompact(json) == Some(ToCompact(data))
  }

  /** One character as three bytes, most significant first. */
  function WideBytes(c: char): (bytes: seq<byte>)
    ensures |bytes| == 3
  {
    var code := c as int;
    var high := code / 65536;
    var rest := code - high * 65536;
    [high as byte, (rest / 256) as byte, (rest % 256) as byte]
  }

  /** A stand-in for a UTF-8 encoder: three bytes per character. */
  function WideEncode(s: string): (bytes: seq<byte>)
    ensures |bytes| == 3 * |s|
  {
    if s == [] then [] else WideBytes(s[0]) + WideEncode(s[1..])
  }

  /** Reads back what `WideEncode` writes; a group that is no character is skipped. */
  function WideDecode(bytes: seq<byte>): string
    decreases |bytes|
  {
    if |bytes| < 3 then []
    else
      var c := bytes[0] as int * 65536 + bytes[1] as int * 256 + bytes[2] as int;
      (if 0 <= c < 0xD800 || 0xE000 <= c < 0x11_0000 then [c as char] else []) + WideDecode(bytes[3..])
  }

  /** The three bytes of a character read back as that character. */
  lemma WideDecodeGroup(c: char, rest: seq<byte>)
    ensures WideDecode(WideBytes(c) + rest) == [c] + WideDecode(rest)
  {
    var bytes := WideBytes(c) + rest;
    var code := c as int;
    var high := code / 65536;
    var rest' := code - high * 65536;
    assert bytes[0] as int == high && bytes[1] as int == rest' / 256 && bytes[2] as int == rest' % 256;
    assert bytes[0] as int * 65536 + bytes[1] as int * 256 + bytes[2] as int == code;
    assert bytes[3..] == rest;
  }

  lemma {:induction false} WideRoundTrip(s: string)
    ensures WideDecode(WideEncode(s)) == s
    decreases |s|
  {
    if s != [] {
      WideDecodeGroup(s[0], WideEncode(s[1..]));
      WideRoundTrip(s[1..]);
      assert s == [s[0]] + s[1..];
    }
  }

  /** Collaborators that meet both hypotheses for `data`: the hypotheses can be met for every lineup. */
  function WitnessPrimitives(data: ShareableLineupData): Primitives {
    Primitives(
      bytes => bytes,
      bytes => Some(bytes),
      WideEncode,
      WideDecode,
      c => "",
      text => Some(ToCompact(data)),
      text => None,
      text => None)
  }

  lemma HypothesesCanBeMet(data: ShareableLineupData)
    ensures Lawful(WitnessPrimitives(data)) && CompactJsonRoundTrips(WitnessPrimitives(data), data)
  {
    var p := WitnessPrimitives(data);
    WideRoundTrip(p.stringifyCompact(ToCompact(data)));
  }

  // ---------------------------------------------------------------------------------------
  // Encoding and decoding

  /**
   * compact, JSON, UTF-8, deflate, one character per byte, `btoa`, URL-safe. `btoa` never
   * throws here, and the token is the URL-safe form of the padded base64 of the compressed
   * bytes, so it uses only the URL- and filename-safe alphabet.
   */
  function EncodeLineupData(p: Primitives, data: ShareableLineupData): (token: string)
    ensures var compressed := p.deflate(p.utf8Encode(p.stringifyCompact(ToCompact(data))));
            Btoa(FromBytes(compressed)) == Some(Encode(compressed)) && token == ToUrlSafe(Encode(compressed))
    ensures IsUrlSafeToken(token)
  {
    var json := p.stringifyCompact(ToCompact(data));
    var compressed := p.deflate(p.utf8Encode(json));
    var binary := FromBytes(compressed);
    ToBytesFromBytes(compressed);
    EncodeIsPadded(compressed);
    ToUrlSafeOfPadded(Encode(compressed));
    ToUrlSafe(Btoa(binary).value)
  }

  /**
   * The current format: URL-safe to standard base64, `atob`, bytes, inflate, UTF-8, JSON. It
   * succeeds only on tokens made of the two base64 alphabets, `=` and ASCII whitespace.
   */
  function DecodeCompressed(p: Primitives, encoded: string): (r: Option<ShareableLineupData>)
    ensures r.Some? ==> forall i | 0 <= i < |encoded| ::
              IsDigit(encoded[i]) || IsUrlSafeDigit(encoded[i]) || encoded[i] == '=' || IsAsciiWhitespace(encoded[i])
  {
    AtobAlphabet(FromUrlSafe(encoded));
    var binary :- Atob(FromUrlSafe(encoded));
    var bytes := ToBytes(binary);
    var inflated :- p.inflate(bytes);
    var json := p.utf8Decode(inflated);
    var compact :- p.parseCompact(json);
    Some(FromCompact(compact))
  }

  /**
   * The older format: `atob` on the token as it stands, `decodeURIComponent`, JSON. Without
   * the URL-safe translation it fails on every token holding a `-` or `_`.
   */
  function DecodeLegacy(p: Primitives, encoded: string): (r: Option<ShareableLineupData>)
    ensures r.Some? ==> forall i | 0 <= i < |encoded| :: encoded[i] != '-' && encoded[i] != '_'
  {
    AtobAlphabet(encoded);
    var binary :- Atob(encoded);
    var jsonString :- p.decodeUriComponent(binary);
    p.parseLineup(jsonString)
  }

  /**
   * The current format first, then the older one, then `null` (`None`); it never throws. The
   * result is `null` exactly when both formats fail.
   */
  function DecodeLineupData(p: Primitives, encoded: string): (r: Option<ShareableLineupData>)
    ensures DecodeCompressed(p, encoded).Some? ==> r == DecodeCompressed(p, encoded)
    ensures DecodeCompressed(p, encoded).None? ==> r == DecodeLegacy(p, encoded)
    ensures r.None? <==> DecodeCompressed(p, encoded).None? && DecodeLegacy(p, encoded).None?
  {
    var current := DecodeCompressed(p, encoded);
    if current.Some? then current else DecodeLegacy(p, encoded)
  }

  /**
   * Decoding a token undoes encoding up to the compact form: the result is the lineup with
   * every empty name made absent, whatever the older-format path would have done.
   */
  lemma EncodeDecodeRoundTrip(p: Primitives, data: ShareableLineupData)
    requires Lawful(p) && CompactJsonRoundTrips(p, data)
    ensures DecodeCompressed(p, EncodeLineupData(p, data)) == Some(FromCompact(ToCompact(data)))
    ensures DecodeLineupData(p, EncodeLineupData(p, data)) == Some(FromCompact(ToCompact(data)))
  {
    var json := p.stringifyCompact(ToCompact(data));
    var compressed := p.deflate(p.utf8Encode(json));
    var binary := FromBytes(compressed);
    EncodeIsPadded(compressed);
    UrlSafeRoundTrip(Encode(compressed));
    AtobBtoa(binary);
    ToBytesFromBytes(compressed);
  }

  /** A lineup without empty names comes back exactly. */
  lemma EncodeDecodeExact(p: Primitives, data: ShareableLineupData)
    requires Lawful(p) && CompactJsonRoundTrips(p, data) && NoEmptyNames(data)
    ensures DecodeLineupData(p, EncodeLineupData(p, data)) == Some(data)
  {
    EncodeDecodeRoundTrip(p, data);
    CompactRoundTrip(data);
  }

  /**
   * Links in the older format keep working: a token made by `btoa` of the URI-encoded JSON
   * decodes to the lineup once the current-format path has failed on it. Nothing in the token
   * marks its format, so that failure has to be assumed here.
   */
  lemma LegacyTokenDecodes(
    p: Primitives,
    encodeUriComponent: string -> string,
    stringifyLineup: ShareableLineupData -> string,
    data: ShareableLineupData)
    requires forall s :: IsBinary(encodeUriComponent(s))
    requires forall s :: p.decodeUriComponent(encodeUriComponent(s)) == Some(s)
    requires p.parseLineup(stringifyLineup(data)) == Some(data)
    requires DecodeCompressed(p, Encode(ToBytes(encodeUriComponent(stringifyLineup(data))))).None?
    ensures var token := Btoa(encodeUriComponent(stringifyLineup(data)));
            token.Some? && DecodeLineupData(p, token.value) == Some(data)
  {
    var uri := encodeUriComponent(stringifyLineup(data));
    AtobBtoa(uri);
  }

  /**
   * A token holding a `-` or `_` decodes only by the current path: the older-format path fails
   * on it.
   */
  lemma LegacyRejectsUrlSafeDigits(p: Primitives, token: string, i: int)
    requires 0 <= i < |token| && (token[i] == '-' || token[i] == '_')
    ensures DecodeLegacy(p, token) == None
    ensures DecodeLineupData(p, token) == DecodeCompressed(p, token)
  {
  }

  // ---------------------------------------------------------------------------------------
  // Share URL

  const SharePath: string := "/lineups/share?data="

  /**
   * The share link: the page origin (empty outside a browser window), the share route and
   * the token, which is URL-safe.
   */
  function GenerateShareableUrl(p: Primitives, origin: Option<string>, data: ShareableLineupData): (url: string)
    ensures var base := if origin.Some? then origin.value else "";
            var start := |base| + |SharePath|;
            start <= |url| && url[..|base|] == base && url[|base|..start] == SharePath &&
            url[start..] == EncodeLineupData(p, data) && IsUrlSafeToken(url[start..])
  {
    var base := if origin.Some? then origin.value else "";
    var url := base + SharePath + EncodeLineupData(p, data);
    assert url[..|base|] == base;
    assert url[|base|..|base| + |SharePath|] == SharePath;
    url
  }

  /** The token in a share link decodes to the lineup, up to empty names. */
  lemma ShareableUrlDecodes(p: Primitives, origin: Option<string>, data: ShareableLineupData)
    requires Lawful(p) && CompactJsonRoundTrips(p, data)
    ensures var url := GenerateShareableUrl(p, origin, data);
            var base := if origin.Some? then origin.value else "";
            DecodeLineupData(p, url[|base| + |SharePath|..]) == Some(FromCompact(ToCompact(data)))
  {
    EncodeDecodeRoundTrip(p, data);
  }

  /** One goalkeeper and no names or numbers: the decoded player has both absent. */
  lemma GoalkeeperExample(p: Primitives)
    requires var data := ShareableLineupData("My Team", "4-3-3", [Player(1, 90.0, 50.0, "GK", None, None)], "#ef4444",
               PitchColor("Classic Green", "bg-gradient-to-br from-green-500 to-green-600",
                 "bg-gradient-to-br from-green-500 to-green-600"));
             Lawful(p) && CompactJsonRoundTrips(p, data)
    ensures var data := ShareableLineupData("My Team", "4-3-3", [Player(1, 90.0, 50.0, "GK", None, None)], "#ef4444",
              PitchColor("Classic Green", "bg-gradient-to-br from-green-500 to-green-600",
                "bg-gradient-to-br from-green-500 to-green-600"));
            var back := DecodeLineupData(p, EncodeLineupData(p, data));
            back.Some? && |back.value.players| == 1 &&
            back.value.players[0] == Player(1, 90.0, 50.0, "GK", None, None)
  {
    var data := ShareableLineupData("My Team", "4-3-3", [Player(1, 90.0, 50.0, "GK", None, None)], "#ef4444",
      PitchColor("Classic Green", "bg-gradient-to-br from-green-500 to-green-600",
        "bg-gradient-to-br from-green-500 to-green-600"));
    EncodeDecodeExact(p, data);
  }
}
