/**
 * The browser's `btoa` and `atob`.
 *
 * `btoa` is base64 encoding with the standard alphabet and `=` padding (section 4 of RFC 4648)
 * applied to a binary string. `atob` is the "forgiving-base64 decode" of the WHATWG Infra
 * standard: it drops ASCII whitespace, accepts a missing padding, rejects a length of 1 modulo
 * 4 and any character outside the alphabet, and ignores the discarded low bits of a final group.
 */
module Base64 {
  import opened Wrappers
  import opened BinaryString

  // ---------------------------------------------------------------------------------------
  // The alphabet

  /** One of the 64 digits of the standard alphabet. */
  predicate IsDigit(c: char) {
    ('A' <= c <= 'Z') || ('a' <= c <= 'z') || ('0' <= c <= '9') || c == '+' || c == '/'
  }

  predicate AllDigits(s: string) {
    forall i | 0 <= i < |s| :: IsDigit(s[i])
  }

  /** The digit with value `k`: `A`–`Z`, `a`–`z`, `0`–`9`, `+`, `/`. */
  function DigitChar(k: int): (c: char)
    requires 0 <= k < 64
    ensures IsDigit(c)
  {
    if k < 26 then (65 + k) as char
    else if k < 52 then (97 + k - 26) as char
    else if k < 62 then (48 + k - 52) as char
    else if k == 62 then '+'
    else '/'
  }

  /** The value of a digit; the inverse of `DigitChar`. */
  function DigitValue(c: char): (k: int)
    requires IsDigit(c)
    ensures 0 <= k < 64 && DigitChar(k) == c
  {
    if 'A' <= c <= 'Z' then c as int - 65
    else if 'a' <= c <= 'z' then c as int - 97 + 26
    else if '0' <= c <= '9' then c as int - 48 + 52
    else if c == '+' then 62
    else 63
  }

  lemma DigitValueOfDigitChar(k: int)
    requires 0 <= k < 64
    ensures DigitValue(DigitChar(k)) == k
  {
  }

  // ---------------------------------------------------------------------------------------
  // Encoding (btoa)

  /** Three bytes as four digits: the 24 bits in four groups of six, most significant first. */
  function EncodeTriple(b0: byte, b1: byte, b2: byte): (s: string)
    ensures |s| == 4 && AllDigits(s)
  {
    [DigitChar(b0 as int / 4), DigitChar(b0 as int % 4 * 16 + b1 as int / 16),
     DigitChar(b1 as int % 16 * 4 + b2 as int / 64), DigitChar(b2 as int % 64)]
  }

  /** A final pair of bytes: 16 bits filled with two zero bits to three digits. */
  function EncodePair(b0: byte, b1: byte): (s: string)
    ensures |s| == 3 && AllDigits(s)
  {
    [DigitChar(b0 as int / 4), DigitChar(b0 as int % 4 * 16 + b1 as int / 16), DigitChar(b1 as int % 16 * 4)]
  }

  /** A final single byte: 8 bits filled with four zero bits to two digits. */
  function EncodeSingle(b0: byte): (s: string)
    ensures |s| == 2 && AllDigits(s)
  {
    [DigitChar(b0 as int / 4), DigitChar(b0 as int % 4 * 16)]
  }

  /** Number of digits (without padding) that encode `n` bytes. */
  function DigitCount(n: nat): (k: nat)
    ensures k % 4 == (if n % 3 == 0 then 0 else n % 3 + 1)
  {
    var groups := n / 3;
    assert 4 * groups % 4 == 0;
    4 * groups + (if n % 3 == 0 then 0 else n % 3 + 1)
  }

  /** The digits of the encoding, before padding. */
  function EncodeDigits(bytes: seq<byte>): (s: string)
    ensures |s| == DigitCount(|bytes|) && AllDigits(s)
    decreases |bytes|
  {
    if |bytes| == 0 then ""
    else if |bytes| == 1 then EncodeSingle(bytes[0])
    else if |bytes| == 2 then EncodePair(bytes[0], bytes[1])
    else EncodeTriple(bytes[0], bytes[1], bytes[2]) + EncodeDigits(bytes[3..])
  }

  /** The `=` characters that bring the encoding of `n` bytes to a multiple of four. */
  function Padding(n: nat): (s: string)
    ensures |s| <= 2 && (DigitCount(n) + |s|) % 4 == 0
    ensures forall i | 0 <= i < |s| :: s[i] == '='
  {
    if n % 3 == 1 then "==" else if n % 3 == 2 then "=" else ""
  }

  /** Standard padded base64 of a byte sequence. */
  function Encode(bytes: seq<byte>): (s: string)
  {
    EncodeDigits(bytes) + Padding(|bytes|)
  }

  /** `btoa(s)`: throws (`None`) when a character does not fit in a byte. */
  function Btoa(s: string): (r: Option<string>)
    ensures r.Some? <==> IsBinary(s)
  {
    if IsBinary(s) then Some(Encode(ToBytes(s))) else None
  }

  // ---------------------------------------------------------------------------------------
  // Decoding (atob)

  /** ASCII whitespace as the WHATWG Infra standard defines it: TAB, LF, FF, CR and SPACE. */
  predicate IsAsciiWhitespace(c: char) {
    c == '\t' || c == '\n' || c == '\U{000C}' || c == '\r' || c == ' '
  }

  /** `s` with every ASCII whitespace character removed. */
  function RemoveWhitespace(s: string): (r: string)
    ensures |r| <= |s|
    ensures forall i | 0 <= i < |r| :: !IsAsciiWhitespace(r[i])
  {
    if s == [] then ""
    else (if IsAsciiWhitespace(s[0]) then "" else [s[0]]) + RemoveWhitespace(s[1..])
  }

  /** One or two trailing `=` removed. */
  function DropPadding(s: string): (r: string)
    ensures |r| <= |s| && r == s[..|r|] && |s| - |r| <= 2
    ensures forall i | |r| <= i < |s| :: s[i] == '='
  {
    if 2 <= |s| && s[|s| - 1] == '=' && s[|s| - 2] == '=' then s[..|s| - 2]
    else if 1 <= |s| && s[|s| - 1] == '=' then s[..|s| - 1]
    else s
  }

  /** The first byte of a group: all six bits of `c0` and the high two bits of `c1`. */
  function FirstByte(c0: char, c1: char): byte
    requires IsDigit(c0) && IsDigit(c1)
  {
    (DigitValue(c0) * 4 + DigitValue(c1) / 16) as byte
  }

  /** The second byte of a group: the low four bits of `c1` and the high four bits of `c2`. */
  function SecondByte(c1: char, c2: char): byte
    requires IsDigit(c1) && IsDigit(c2)
  {
    (DigitValue(c1) % 16 * 16 + DigitValue(c2) / 4) as byte
  }

  /** The third byte of a group: the low two bits of `c2` and all six bits of `c3`. */
  function ThirdByte(c2: char, c3: char): byte
    requires IsDigit(c2) && IsDigit(c3)
  {
    (DigitValue(c2) % 4 * 64 + DigitValue(c3)) as byte
  }

  /**
   * Digits back to bytes, four digits to three bytes. A final group of three digits (18 bits)
   * gives two bytes and one of two digits (12 bits) gives one byte; the low bits left over are
   * dropped, as `atob` does.
   */
  function DecodeDigits(s: string): (bytes: seq<byte>)
    requires AllDigits(s) && |s| % 4 != 1
    decreases |s|
  {
    if |s| == 0 then []
    else if |s| == 2 then [FirstByte(s[0], s[1])]
    else if |s| == 3 then [FirstByte(s[0], s[1]), SecondByte(s[1], s[2])]
    else [FirstByte(s[0], s[1]), SecondByte(s[1], s[2]), ThirdByte(s[2], s[3])] + DecodeDigits(s[4..])
  }

  /**
   * `atob(s)`: `None` where the browser throws `InvalidCharacterError`, otherwise the decoded
   * bytes as a binary string.
   */
  function Atob(s: string): (r: Option<string>)
    ensures r.Some? ==> IsBinary(r.value)
  {
    var data := RemoveWhitespace(s);
    var data := if |data| % 4 == 0 then DropPadding(data) else data;
    if |data| % 4 == 1 || !AllDigits(data) then None
    else Some(FromBytes(DecodeDigits(data)))
  }

  // ---------------------------------------------------------------------------------------
  // Round trip

  /** The bits of `b0` split between the first two digits join back into `b0`. */
  lemma FirstByteJoins(b0: byte, b1: byte, low: int)
    requires 0 <= low < 16
    ensures var d0 := DigitChar(b0 as int / 4);
            var d1 := DigitChar(b0 as int % 4 * 16 + low);
            FirstByte(d0, d1) == b0
  {
    DigitValueOfDigitChar(b0 as int / 4);
    DigitValueOfDigitChar(b0 as int % 4 * 16 + low);
    assert (b0 as int % 4 * 16 + low) / 16 == b0 as int % 4;
  }

  /** The bits of `b1` split between the second and third digits join back into `b1`. */
  lemma SecondByteJoins(b0: byte, b1: byte, low: int)
    requires 0 <= low < 4
    ensures var d1 := DigitChar(b0 as int % 4 * 16 + b1 as int / 16);
            var d2 := DigitChar(b1 as int % 16 * 4 + low);
            SecondByte(d1, d2) == b1
  {
    DigitValueOfDigitChar(b0 as int % 4 * 16 + b1 as int / 16);
    DigitValueOfDigitChar(b1 as int % 16 * 4 + low);
    assert (b0 as int % 4 * 16 + b1 as int / 16) % 16 == b1 as int / 16;
    assert (b1 as int % 16 * 4 + low) / 4 == b1 as int % 16;
  }

  /** The bits of `b2` split between the third and fourth digits join back into `b2`. */
  lemma ThirdByteJoins(b1: byte, b2: byte)
    ensures var d2 := DigitChar(b1 as int % 16 * 4 + b2 as int / 64);
            var d3 := DigitChar(b2 as int % 64);
            ThirdByte(d2, d3) == b2
  {
    DigitValueOfDigitChar(b1 as int % 16 * 4 + b2 as int / 64);
    DigitValueOfDigitChar(b2 as int % 64);
    assert (b1 as int % 16 * 4 + b2 as int / 64) % 4 == b2 as int / 64;
  }

  lemma DecodeEncodeSingle(b0: byte)
    ensures DecodeDigits(EncodeSingle(b0)) == [b0]
  {
    var s := EncodeSingle(b0);
    FirstByteJoins(b0, 0, 0);
    assert DecodeDigits(s) == [FirstByte(s[0], s[1])];
  }

  lemma DecodeEncodePair(b0: byte, b1: byte)
    ensures DecodeDigits(EncodePair(b0, b1)) == [b0, b1]
  {
    var s := EncodePair(b0, b1);
    FirstByteJoins(b0, b1, b1 as int / 16);
    SecondByteJoins(b0, b1, 0);
    assert DecodeDigits(s) == [FirstByte(s[0], s[1]), SecondByte(s[1], s[2])];
  }

  /** The three bytes of a group come back from its four digits. */
  lemma TripleJoins(b0: byte, b1: byte, b2: byte)
    ensures var e := EncodeTriple(b0, b1, b2);
            FirstByte(e[0], e[1]) == b0 && SecondByte(e[1], e[2]) == b1 && ThirdByte(e[2], e[3]) == b2
  {
    FirstByteJoins(b0, b1, b1 as int / 16);
    SecondByteJoins(b0, b1, b2 as int / 64);
    ThirdByteJoins(b1, b2);
  }

  lemma AllDigitsAppend(a: string, b: string)
    requires AllDigits(a) && AllDigits(b)
    ensures AllDigits(a + b)
  {
    forall i | 0 <= i < |a + b| ensures IsDigit((a + b)[i]) {
      if i < |a| { assert (a + b)[i] == a[i]; } else { assert (a + b)[i] == b[i - |a|]; }
    }
  }

  /** One step of `DecodeDigits` on a text of at least four digits. */
  lemma DecodeDigitsGroup(s: string)
    requires AllDigits(s) && |s| % 4 != 1 && |s| >= 4
    ensures AllDigits(s[4..]) && |s[4..]| % 4 != 1
    ensures DecodeDigits(s) == [FirstByte(s[0], s[1]), SecondByte(s[1], s[2]), ThirdByte(s[2], s[3])] + DecodeDigits(s[4..])
  {
    assert forall i | 0 <= i < |s[4..]| :: s[4..][i] == s[i + 4];
  }

  lemma GroupLengthShift(n: nat)
    ensures (n + 4) % 4 == n % 4
  {
  }

  lemma SplitOne(bytes: seq<byte>)
    requires |bytes| == 1
    ensures bytes == [bytes[0]]
  {
  }

  lemma SplitTwo(bytes: seq<byte>)
    requires |bytes| == 2
    ensures bytes == [bytes[0], bytes[1]]
  {
  }

  lemma SplitThree(bytes: seq<byte>)
    requires |bytes| >= 3
    ensures bytes == [bytes[0], bytes[1], bytes[2]] + bytes[3..]
  {
  }

  lemma DecodeEncodeTriple(b0: byte, b1: byte, b2: byte, tail: string)
    requires AllDigits(tail) && |tail| % 4 != 1
    ensures var s := EncodeTriple(b0, b1, b2) + tail;
            AllDigits(s) && |s| % 4 != 1 && DecodeDigits(s) == [b0, b1, b2] + DecodeDigits(tail)
  {
    var e := EncodeTriple(b0, b1, b2);
    var s := e + tail;
    AllDigitsAppend(e, tail);
    assert |s| == |tail| + 4;
    GroupLengthShift(|tail|);
    assert s[0] == e[0] && s[1] == e[1] && s[2] == e[2] && s[3] == e[3];
    assert s[4..] == tail;
    DecodeDigitsGroup(s);
    TripleJoins(b0, b1, b2);
  }

  lemma DecodeEncodeShort(bytes: seq<byte>)
    requires |bytes| < 3
    ensures DecodeDigits(EncodeDigits(bytes)) == bytes
  {
    if |bytes| == 0 {
      assert EncodeDigits(bytes) == "";
    } else if |bytes| == 1 {
      assert EncodeDigits(bytes) == EncodeSingle(bytes[0]);
      DecodeEncodeSingle(bytes[0]);
      SplitOne(bytes);
    } else {
      assert EncodeDigits(bytes) == EncodePair(bytes[0], bytes[1]);
      DecodeEncodePair(bytes[0], bytes[1]);
      SplitTwo(bytes);
    }
  }

  /** Decoding the digits of an encoding gives back the bytes. */
  lemma {:induction false} DecodeEncodeDigits(bytes: seq<byte>)
    ensures DecodeDigits(EncodeDigits(bytes)) == bytes
    decreases |bytes|
  {
    if |bytes| < 3 {
      DecodeEncodeShort(bytes);
    } else {
      var tail := EncodeDigits(bytes[3..]);
      assert EncodeDigits(bytes) == EncodeTriple(bytes[0], bytes[1], bytes[2]) + tail;
      DecodeEncodeTriple(bytes[0], bytes[1], bytes[2], tail);
      DecodeEncodeDigits(bytes[3..]);
      SplitThree(bytes);
    }
  }

  lemma RemoveWhitespaceKeeps(s: string, i: int)
    requires 0 <= i < |s| && !IsAsciiWhitespace(s[i])
    ensures s[i] in RemoveWhitespace(s)
  {
    var head := if IsAsciiWhitespace(s[0]) then "" else [s[0]];
    assert RemoveWhitespace(s) == head + RemoveWhitespace(s[1..]);
    if i > 0 {
      assert s[1..][i - 1] == s[i];
      RemoveWhitespaceKeeps(s[1..], i - 1);
    } else {
      assert RemoveWhitespace(s)[0] == s[0];
    }
  }

  /**
   * `atob` accepts only digits of the standard alphabet, `=` and ASCII whitespace: any other
   * character makes it throw.
   */
  lemma AtobAlphabet(s: string)
    ensures Atob(s).Some? ==> forall i | 0 <= i < |s| :: IsDigit(s[i]) || s[i] == '=' || IsAsciiWhitespace(s[i])
  {
    forall i | 0 <= i < |s| && !IsDigit(s[i]) && s[i] != '=' && !IsAsciiWhitespace(s[i])
      ensures Atob(s).None?
    {
      RemoveWhitespaceKeeps(s, i);
      var data := RemoveWhitespace(s);
      var j :| 0 <= j < |data| && data[j] == s[i];
      var data' := if |data| % 4 == 0 then DropPadding(data) else data;
      assert j < |data'| && !IsDigit(data'[j]);
    }
  }

  lemma RemoveWhitespaceOfNone(s: string)
    requires forall i | 0 <= i < |s| :: !IsAsciiWhitespace(s[i])
    ensures RemoveWhitespace(s) == s
  {
    if s != [] {
      RemoveWhitespaceOfNone(s[1..]);
    }
  }

  /** An encoding holds no whitespace. */
  lemma EncodeHasNoWhitespace(bytes: seq<byte>)
    ensures RemoveWhitespace(Encode(bytes)) == Encode(bytes)
  {
    var digits := EncodeDigits(bytes);
    var t := Encode(bytes);
    forall i | 0 <= i < |t| ensures !IsAsciiWhitespace(t[i]) {
      if i < |digits| { assert t[i] == digits[i]; } else { assert t[i] == '='; }
    }
    RemoveWhitespaceOfNone(t);
  }

  /** An encoding has a multiple of four characters, and dropping its padding leaves its digits. */
  lemma EncodeUnpads(bytes: seq<byte>)
    ensures |Encode(bytes)| % 4 == 0 && DropPadding(Encode(bytes)) == EncodeDigits(bytes)
  {
    var digits := EncodeDigits(bytes);
    var pad := Padding(|bytes|);
    var t := digits + pad;
    assert |digits| % 4 != 1;
    if |pad| == 2 {
      assert t[|t| - 1] == pad[1] == '=' && t[|t| - 2] == pad[0] == '=';
      assert t[..|t| - 2] == digits;
    } else if |pad| == 1 {
      assert t[|t| - 1] == pad[0] == '=';
      assert t[|t| - 2] == digits[|digits| - 1];
      assert t[..|t| - 1] == digits;
    } else {
      assert t == digits;
      if |t| > 0 { assert IsDigit(t[|t| - 1]); }
    }
  }

  /** `atob` undoes `btoa` on every binary string. */
  lemma AtobBtoa(s: string)
    requires IsBinary(s)
    ensures Atob(Btoa(s).value) == Some(s)
  {
    var bytes := ToBytes(s);
    var digits := EncodeDigits(bytes);
    var t := Encode(bytes);
    assert Btoa(s).value == t;
    EncodeHasNoWhitespace(bytes);
    EncodeUnpads(bytes);
    assert |digits| % 4 != 1;
    DecodeEncodeDigits(bytes);
    FromBytesToBytes(s);
    calc {
      Atob(t);
      Some(FromBytes(DecodeDigits(digits)));
      Some(FromBytes(bytes));
      Some(s);
    }
  }

  // ---------------------------------------------------------------------------------------
  // Padded form

  /** Where the trailing run of `=` characters of `s` starts. */
  function PaddingStart(s: string): (k: nat)
    ensures k <= |s|
    ensures forall i | k <= i < |s| :: s[i] == '='
    ensures k == 0 || s[k - 1] != '='
    decreases |s|
  {
    if |s| > 0 && s[|s| - 1] == '=' then PaddingStart(s[..|s| - 1]) else |s|
  }

  /** The three facts in `PaddingStart`'s contract single out its result. */
  lemma {:induction false} PaddingStartUnique(s: string, k: nat)
    requires k <= |s|
    requires forall i | k <= i < |s| :: s[i] == '='
    requires k == 0 || s[k - 1] != '='
    ensures PaddingStart(s) == k
    decreases |s|
  {
    if |s| > 0 && s[|s| - 1] == '=' {
      assert k < |s|;
      PaddingStartUnique(s[..|s| - 1], k);
    }
  }

  /**
   * Standard padded base64 text: digits followed by at most two `=`, four characters per
   * group.
   */
  predicate IsPaddedBase64(s: string) {
    |s| % 4 == 0 && |s| - PaddingStart(s) <= 2 && AllDigits(s[..PaddingStart(s)])
  }

  /** Every `btoa` result is in the padded form. */
  lemma EncodeIsPadded(bytes: seq<byte>)
    ensures IsPaddedBase64(Encode(bytes))
  {
    var digits := EncodeDigits(bytes);
    var t := Encode(bytes);
    PaddingStartUnique(t, |digits|);
    assert t[..|digits|] == digits;
  }
}
