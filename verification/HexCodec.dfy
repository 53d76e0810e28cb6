/** Hex text: the encoder used for digests and the decoder used for signatures. */
module HexCodec {
  import opened Domain
  import opened Octets
  import opened PacketParser

  const DIGITS := "0123456789abcdef"

  function EncodeByte(value: byte): string {
    [DIGITS[value / 16], DIGITS[value % 16]]
  }

  function Encode(bytes: seq<byte>): string {
    if bytes == [] then "" else Encode(bytes[..|bytes| - 1]) + EncodeByte(bytes[|bytes| - 1])
  }

  method HexEncode(bytes: seq<byte>) returns (out: string)
    ensures out == Encode(bytes)
  {
    out := "";
    for i := 0 to |bytes|
      invariant out == Encode(bytes[..i])
    {
      assert bytes[..i + 1][..i] == bytes[..i];
      out := out + [DIGITS[bytes[i] / 16]];
      out := out + [DIGITS[bytes[i] % 16]];
    }
    assert bytes[..|bytes|] == bytes;
  }

  function HexNibble(c: char): (v: int)
    ensures -1 <= v < 16
    ensures v >= 0 <==> IsHexDigit(c)
    ensures v >= 0 ==> DIGITS[v] == Lower(c)
  {
    if '0' <= c <= '9' then (c - '0') as int
    else
      var lower := Lower(c);
      if 'a' <= lower <= 'f' then 10 + (lower - 'a') as int else -1
  }

  ghost predicate Decodable(hex: string) {
    |hex| % 2 == 0 && forall i :: 0 <= i < |hex| ==> IsHexDigit(hex[i])
  }

  /** The octet of the two digits at 2i. */
  function OctetAt(hex: string, i: nat): byte
    requires 2 * i + 1 < |hex| && IsHexDigit(hex[2 * i]) && IsHexDigit(hex[2 * i + 1])
  {
    HexNibble(hex[2 * i]) * 16 + HexNibble(hex[2 * i + 1])
  }

  function Decode(hex: string): (bytes: seq<byte>)
    requires Decodable(hex)
    ensures |bytes| == |hex| / 2
  {
    seq(|hex| / 2, i requires 0 <= i < |hex| / 2 => OctetAt(hex, i))
  }

  /** Succeeds exactly on even-length text of hex digits; (hi << 4) | lo of two nibbles is their sum. */
  method DecodeHex(hex: string) returns (r: Option<seq<byte>>)
    ensures r == if Decodable(hex) then Some(Decode(hex)) else None
  {
    hide HexNibble, OctetAt, IsHexDigit;
    if |hex| % 2 != 0 { return None; }
    var n := |hex| / 2;
    var bytes := new byte[n](i => 0);
    for i := 0 to n
      invariant forall j :: 0 <= j < 2 * i ==> IsHexDigit(hex[j])
      invariant forall j :: 0 <= j < i ==> bytes[j] == OctetAt(hex, j)
    {
      var hi, lo := HexNibble(hex[2 * i]), HexNibble(hex[2 * i + 1]);
      if hi < 0 || lo < 0 { return None; }
      NibblesOfOctet(hex, i);
      bytes[i] := hi * 16 + lo;
    }
    assert Decodable(hex);
    assert bytes[..] == Decode(hex);
    return Some(bytes[..]);
  }

  lemma NibblesOfOctet(hex: string, i: nat)
    requires 2 * i + 1 < |hex| && IsHexDigit(hex[2 * i]) && IsHexDigit(hex[2 * i + 1])
    ensures OctetAt(hex, i) == HexNibble(hex[2 * i]) * 16 + HexNibble(hex[2 * i + 1])
    ensures OctetAt(hex, i) / 16 == HexNibble(hex[2 * i]) && OctetAt(hex, i) % 16 == HexNibble(hex[2 * i + 1])
  {
    hide HexNibble, IsHexDigit;
  }

  lemma NibbleOfDigit(v: nat)
    requires v < 16
    ensures IsHexDigit(DIGITS[v]) && HexNibble(DIGITS[v]) == v && Lower(DIGITS[v]) == DIGITS[v]
  {
    assert v < 10 ==> DIGITS[v] == '0' + v as char;
    assert v >= 10 ==> DIGITS[v] == 'a' + (v - 10) as char;
  }

  lemma {:induction false} EncodeShape(bytes: seq<byte>)
    ensures |Encode(bytes)| == 2 * |bytes|
    ensures forall i :: 0 <= i < |bytes| ==>
              Encode(bytes)[2 * i] == DIGITS[bytes[i] / 16] && Encode(bytes)[2 * i + 1] == DIGITS[bytes[i] % 16]
  {
    if bytes == [] {
    } else {
      var init, last := bytes[..|bytes| - 1], bytes[|bytes| - 1];
      EncodeShape(init);
      assert Encode(bytes) == Encode(init) + [DIGITS[last / 16], DIGITS[last % 16]];
    }
  }

  /** Decoding what was encoded gives the octets back. */
  lemma DecodeOfEncode(bytes: seq<byte>)
    ensures Decodable(Encode(bytes)) && Decode(Encode(bytes)) == bytes
  {
    hide Encode, HexNibble;
    EncodeShape(bytes);
    var hex := Encode(bytes);
    forall i | 0 <= i < |hex| ensures IsHexDigit(hex[i]) {
      NibbleOfDigit(bytes[i / 2] / 16);
      NibbleOfDigit(bytes[i / 2] % 16);
      assert i == 2 * (i / 2) || i == 2 * (i / 2) + 1;
    }
    forall i | 0 <= i < |bytes| ensures Decode(hex)[i] == bytes[i] {
      NibbleOfDigit(bytes[i] / 16);
      NibbleOfDigit(bytes[i] % 16);
    }
  }

  /** Encoding what was decoded gives the text back in lower case. */
  lemma EncodeOfDecode(hex: string)
    requires Decodable(hex)
    ensures Encode(Decode(hex)) == LowerAll(hex)
  {
    hide Encode, OctetAt, IsHexDigit;
    var bytes := Decode(hex);
    EncodeShape(bytes);
    forall i | 0 <= i < |hex| ensures Encode(bytes)[i] == Lower(hex[i]) {
      var k := i / 2;
      NibblesOfOctet(hex, k);
      assert bytes[k] == OctetAt(hex, k);
      assert i == 2 * k || i == 2 * k + 1;
    }
  }

  /** The hex text of 32 octets, and of no other number of octets, passes for a hash. */
  lemma HashTextIff(bytes: seq<byte>)
    ensures Hex64(Encode(bytes)) <==> |bytes| == 32
  {
    hide Encode, HexNibble;
    EncodeShape(bytes);
    DecodeOfEncode(bytes);
  }
}
