/**
  Identifiers of stored users. The Go type `uuid.UUID` of github.com/google/uuid
  is an array of sixteen bytes; its `String` method renders the canonical form of
  section 3 of RFC 4122: lower-case hexadecimal digits grouped 8-4-4-4-12 and
  separated by dashes.
*/
module Uuids {

  newtype uint8 = x: int | 0 <= x < 256

  /** Sixteen bytes, as `[16]byte` in Go. */
  type Uuid = s: seq<uint8> | |s| == 16 witness [0, 0, 0, 0, 0, 0, 0, 0, 0, 0, 0, 0, 0, 0, 0, 0]

  predicate IsHexDigit(c: char) {
    '0' <= c <= '9' || 'a' <= c <= 'f'
  }

  /** The value of a lower-case hexadecimal digit (0 for any other character). */
  function DigitValue(c: char): (d: int)
    ensures 0 <= d < 16
  {
    if '0' <= c <= '9' then c as int - '0' as int
    else if 'a' <= c <= 'f' then c as int - 'a' as int + 10
    else 0
  }

  /** The lower-case hexadecimal digit for a value below 16. */
  function HexDigit(d: int): (c: char)
    requires 0 <= d < 16
    ensures IsHexDigit(c)
    ensures DigitValue(c) == d
  {
    if d < 10 then ('0' as int + d) as char else ('a' as int + d - 10) as char
  }

  /** Two hexadecimal digits per byte, most significant digit first. */
  function Hex(bytes: seq<uint8>): (s: string)
    ensures |s| == 2 * |bytes|
    ensures forall i :: 0 <= i < |s| ==> IsHexDigit(s[i])
  {
    if bytes == [] then ""
    else [HexDigit(bytes[0] as int / 16), HexDigit(bytes[0] as int % 16)] + Hex(bytes[1..])
  }

  /** Reads pairs of hexadecimal digits back into bytes. */
  function UnHex(s: string): (bytes: seq<uint8>)
    ensures |bytes| == |s| / 2
  {
    if |s| < 2 then []
    else [(16 * DigitValue(s[0]) + DigitValue(s[1])) as uint8] + UnHex(s[2..])
  }

  lemma {:induction false} UnHexHex(bytes: seq<uint8>)
    ensures UnHex(Hex(bytes)) == bytes
  {
    if bytes != [] {
      var s := Hex(bytes);
      assert s[2..] == Hex(bytes[1..]);
      UnHexHex(bytes[1..]);
      var b := bytes[0] as int;
      assert 16 * (b / 16) + b % 16 == b;
    }
  }

  /** The canonical text form of a UUID: `xxxxxxxx-xxxx-xxxx-xxxx-xxxxxxxxxxxx`. */
  function UuidString(u: Uuid): (s: string)
    ensures |s| == 36
    ensures forall i :: 0 <= i < 36 ==>
      if i == 8 || i == 13 || i == 18 || i == 23 then s[i] == '-' else IsHexDigit(s[i])
  {
    Hex(u[..4]) + "-" + Hex(u[4..6]) + "-" + Hex(u[6..8]) + "-" + Hex(u[8..10]) + "-" + Hex(u[10..])
  }

  /** The bytes that a canonical text form spells, skipping the four dashes. */
  ghost function CanonicalBytes(s: string): seq<uint8>
    requires |s| == 36
  {
    UnHex(s[..8]) + UnHex(s[9..13]) + UnHex(s[14..18]) + UnHex(s[19..23]) + UnHex(s[24..])
  }

  lemma CanonicalBytesOfString(u: Uuid)
    ensures CanonicalBytes(UuidString(u)) == u
  {
    var s := UuidString(u);
    assert s[..8] == Hex(u[..4]);
    assert s[9..13] == Hex(u[4..6]);
    assert s[14..18] == Hex(u[6..8]);
    assert s[19..23] == Hex(u[8..10]);
    assert s[24..] == Hex(u[10..]);
    UnHexHex(u[..4]);
    UnHexHex(u[4..6]);
    UnHexHex(u[6..8]);
    UnHexHex(u[8..10]);
    UnHexHex(u[10..]);
    assert u == u[..4] + u[4..6] + u[6..8] + u[8..10] + u[10..];
  }

  /** Distinct UUIDs have distinct text forms. */
  lemma UuidStringInjective(a: Uuid, b: Uuid)
    ensures UuidString(a) == UuidString(b) ==> a == b
  {
    CanonicalBytesOfString(a);
    CanonicalBytesOfString(b);
  }

}
