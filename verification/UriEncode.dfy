/** Percent-encoding as Signature Version 4 wants it, over bytes (sections 2.1 and 2.3 of RFC 3986). */
module UriEncode {
  import opened Common

  type Bytes = seq<Byte>

  const PERCENT: Byte := 0x25
  const PLUS: Byte := 0x2B
  const SLASH: Byte := 0x2F
  const SPACE: Byte := 0x20

  predicate Unreserved(c: Byte) {
    'A' as int <= c <= 'Z' as int || 'a' as int <= c <= 'z' as int || '0' as int <= c <= '9' as int
    || c == '-' as int || c == '.' as int || c == '_' as int || c == '~' as int
  }

  predicate Literal(c: Byte, encodeSlash: bool) { Unreserved(c) || (c == SLASH && !encodeSlash) }

  /** An upper-case hexadecimal digit. */
  function HexDigit(n: int): Byte
    requires 0 <= n < 16
  {
    if n < 10 then '0' as int + n else 'A' as int + n - 10
  }

  function EncodeByte(c: Byte, encodeSlash: bool): Bytes {
    if Literal(c, encodeSlash) then [c] else [PERCENT, HexDigit(c / 16), HexDigit(c % 16)]
  }

  /** The ASCII codes of section 2.3 of RFC 3986 stay as they are, and a path keeps its slashes; the rest is escaped. */
  lemma EncodedByteIs(c: Byte, encodeSlash: bool)
    ensures var plain := 0x41 <= c <= 0x5A || 0x61 <= c <= 0x7A || 0x30 <= c <= 0x39 || c in {0x2D, 0x2E, 0x5F, 0x7E};
      var e := EncodeByte(c, encodeSlash);
      if plain || (!encodeSlash && c == 0x2F) then e == [c]
      else e == [0x25, c / 16 + (if c < 0xA0 then 0x30 else 0x37), c % 16 + if c % 16 < 10 then 0x30 else 0x37]
  {}

  function Encode(s: Bytes, encodeSlash: bool): Bytes {
    if s == [] then [] else EncodeByte(s[0], encodeSlash) + Encode(s[1..], encodeSlash)
  }

  lemma EncodeStep(s: Bytes, i: nat, b: Bytes, encodeSlash: bool)
    requires i < |s|
    ensures b + Encode(s[i..], encodeSlash) == b + EncodeByte(s[i], encodeSlash) + Encode(s[i + 1..], encodeSlash)
  {
    assert s[i..][1..] == s[i + 1..];
  }

  method AwsUriEncode(s: Bytes, encodeSlash: bool) returns (b: Bytes)
    ensures b == Encode(s, encodeSlash)
  {
    b := [];
    for i := 0 to |s|
      invariant Encode(s, encodeSlash) == b + Encode(s[i..], encodeSlash)
    {
      var c := s[i];
      EncodeStep(s, i, b, encodeSlash);
      if 'A' as int <= c <= 'Z' as int || 'a' as int <= c <= 'z' as int || '0' as int <= c <= '9' as int
         || c == '-' as int || c == '.' as int || c == '_' as int || c == '~' as int {
        b := b + [c];
      } else if c == SLASH && !encodeSlash {
        b := b + [c];
      } else {
        b := b + [PERCENT, HexDigit(c / 16), HexDigit(c % 16)];
      }
    }
  }

  // ------------------------------------------------------------------ decoding

  function HexValue(c: Byte): Option<int> {
    if '0' as int <= c <= '9' as int then Some(c - '0' as int)
    else if 'A' as int <= c <= 'F' as int then Some(c - 'A' as int + 10)
    else if 'a' as int <= c <= 'f' as int then Some(c - 'a' as int + 10)
    else None
  }

  /** The escape at the head of s. */
  function Escaped(s: Bytes): (r: Option<Byte>)
    ensures r.Some? ==> |s| >= 3
  {
    if |s| >= 3 && s[0] == PERCENT && HexValue(s[1]).Some? && HexValue(s[2]).Some?
    then Some(HexValue(s[1]).value * 16 + HexValue(s[2]).value) else None
  }

  /** The inverse the receiver applies; in a query a plus sign also stands for a space. */
  function Decode(s: Bytes, plusIsSpace: bool): Option<Bytes> {
    if s == [] then Some([])
    else if s[0] == PERCENT && Escaped(s).None? then None
    else
      var (c, rest) := if s[0] == PERCENT then (Escaped(s).value, s[3..])
                       else (if plusIsSpace && s[0] == PLUS then SPACE else s[0], s[1..]);
      var tail := Decode(rest, plusIsSpace);
      if tail.Some? then Some([c] + tail.value) else None
  }

  lemma EscapeDecodes(c: Byte, rest: Bytes)
    ensures Escaped([PERCENT, HexDigit(c / 16), HexDigit(c % 16)] + rest) == Some(c)
  {}

  lemma DecodeHead(c: Byte, encodeSlash: bool, plusIsSpace: bool, rest: Bytes)
    requires Decode(rest, plusIsSpace).Some?
    ensures Decode(EncodeByte(c, encodeSlash) + rest, plusIsSpace) == Some([c] + Decode(rest, plusIsSpace).value)
  {
    var e := EncodeByte(c, encodeSlash);
    if Literal(c, encodeSlash) {
      assert (e + rest)[1..] == rest;
    } else {
      EscapeDecodes(c, rest);
      assert (e + rest)[3..] == rest;
    }
  }

  /** Decoding an encoding gives every byte string back, in both slash modes, as a path or in a query. */
  lemma {:induction false} DecodeUndoesEncode(s: Bytes, encodeSlash: bool, plusIsSpace: bool)
    ensures Decode(Encode(s, encodeSlash), plusIsSpace) == Some(s)
  {
    if s != [] {
      DecodeUndoesEncode(s[1..], encodeSlash, plusIsSpace);
      DecodeHead(s[0], encodeSlash, plusIsSpace, Encode(s[1..], encodeSlash));
      assert [s[0]] + s[1..] == s;
    }
  }

  /** What an encoding is made of: literal bytes, percent signs and upper-case hexadecimal digits. */
  lemma {:induction false} EncodedBytes(s: Bytes, encodeSlash: bool)
    ensures forall c :: c in Encode(s, encodeSlash) ==> c == PERCENT || Literal(c, encodeSlash)
  {
    if s != [] { EncodedBytes(s[1..], encodeSlash); }
  }
}
