/**
 * Bytes and JavaScript "binary strings": strings whose every character code is below 256,
 * the form `btoa` consumes and `atob` produces.
 */
module BinaryString {

  newtype byte = x: int | 0 <= x < 256

  /** Every character of `s` fits in one byte. */
  predicate IsBinary(s: string) {
    forall i | 0 <= i < |s| :: s[i] as int < 256
  }

  /** `String.fromCharCode(...bytes)`: one character per byte, with that byte as its code. */
  function FromBytes(bytes: seq<byte>): (s: string)
    ensures |s| == |bytes| && IsBinary(s)
    ensures forall i | 0 <= i < |s| :: s[i] as int == bytes[i] as int
  {
    seq(|bytes|, i requires 0 <= i < |bytes| => bytes[i] as int as char)
  }

  /**
   * `Uint8Array.from(s, c => c.charCodeAt(0))`: each character's code, wrapped modulo 256
   * as a `Uint8Array` element conversion does. The codec applies it only to binary strings
   * (what `atob` returns), where no wrapping happens and each character is one UTF-16 unit.
   */
  function ToBytes(s: string): (bytes: seq<byte>)
    ensures |bytes| == |s|
    ensures forall i | 0 <= i < |s| :: bytes[i] as int == s[i] as int % 256
  {
    seq(|s|, i requires 0 <= i < |s| => (s[i] as int % 256) as byte)
  }

  /** Bytes survive the trip through a binary string. */
  lemma ToBytesFromBytes(bytes: seq<byte>)
    ensures ToBytes(FromBytes(bytes)) == bytes
  {
  }

  /** A binary string survives the trip through bytes; no other string does. */
  lemma FromBytesToBytes(s: string)
    ensures FromBytes(ToBytes(s)) == s <==> IsBinary(s)
  {
    if IsBinary(s) {
      assert forall i | 0 <= i < |s| :: FromBytes(ToBytes(s))[i] == s[i];
    } else {
      var i :| 0 <= i < |s| && s[i] as int >= 256;
      assert FromBytes(ToBytes(s))[i] != s[i];
    }
  }
}
