/** Base64 as section 4 of RFC 4648 defines it: the encoder, and a decoder to measure it by. */
module Base64 {
  import opened Domain
  import opened Octets

  type sextet = n: int | 0 <= n < 64

  const UPPER := "ABCDEFGHIJKLMNOPQRSTUVWXYZ"
  const LOWER := "abcdefghijklmnopqrstuvwxyz"
  const OTHERS := "0123456789+/"

  /** kAlphabet. */
  const ALPHABET := UPPER + LOWER + OTHERS

  /** Table 1 of RFC 4648. */
  function CharOf(v: sextet): char {
    if v < 26 then 'A' + v as char
    else if v < 52 then 'a' + (v - 26) as char
    else if v < 62 then '0' + (v - 52) as char
    else if v == 62 then '+'
    else '/'
  }

  function SextetOf(c: char): Option<sextet> {
    if 'A' <= c <= 'Z' then Some((c - 'A') as int)
    else if 'a' <= c <= 'z' then Some(26 + (c - 'a') as int)
    else if '0' <= c <= '9' then Some(52 + (c - '0') as int)
    else if c == '+' then Some(62)
    else if c == '/' then Some(63)
    else None
  }

  lemma UpperIsTable(v: sextet)
    ensures |UPPER| == 26 && (v < 26 ==> UPPER[v] == 'A' + v as char)
  {
  }

  lemma LowerIsTable(v: sextet)
    ensures |LOWER| == 26 && (26 <= v < 52 ==> LOWER[v - 26] == 'a' + (v - 26) as char)
  {
  }

  lemma OthersAreTable(v: sextet)
    ensures |OTHERS| == 12 && (v >= 52 ==> OTHERS[v - 52] == CharOf(v))
  {
  }

  /** The encoder's table lists the characters of the standard in order. */
  lemma AlphabetIsTable(v: sextet)
    ensures |ALPHABET| == 64 && ALPHABET[v] == CharOf(v)
  {
    hide UPPER, LOWER, OTHERS;
    UpperIsTable(v);
    LowerIsTable(v);
    OthersAreTable(v);
  }

  lemma SextetOfChar(v: sextet)
    ensures SextetOf(CharOf(v)) == Some(v) && CharOf(v) != '='
  {
  }

  lemma CharOfSextet(c: char)
    ensures SextetOf(c).Some? ==> CharOf(SextetOf(c).value) == c
  {
  }

  lemma PadIsNoSextet()
    ensures SextetOf('=') == None
  {
  }

  // ---------- Encoding ----------

  /** Three octets side by side: x << 16 | y << 8 | z. */
  function Group(x: byte, y: byte, z: byte): (value: nat)
    ensures value < 0x100_0000
  {
    (x as int) * 0x1_0000 + (y as int) * 0x100 + z as int
  }

  /** The sextets a group is cut into, by octet: the first, the second, the third and the fourth. */
  lemma FirstSextet(x: byte, y: byte, z: byte)
    ensures Group(x, y, z) / 0x4_0000 == x / 4
  {
    var i: int, j: int, k: int := x, y, z;
    var low := i % 4 * 0x1_0000 + j * 0x100 + k;
    assert Group(x, y, z) == i / 4 * 0x4_0000 + low && 0 <= low < 0x4_0000;
  }

  lemma SecondSextet(x: byte, y: byte, z: byte)
    ensures Group(x, y, z) / 0x1000 % 64 == x % 4 * 16 + y / 16
  {
    var i: int, j: int, k: int := x, y, z;
    var high, low, digit := i * 16 + j / 16, j % 16 * 0x100 + k, i % 4 * 16 + j / 16;
    assert Group(x, y, z) / 0x1000 == high by { assert Group(x, y, z) == high * 0x1000 + low && 0 <= low < 0x1000; }
    assert high % 64 == digit by { assert high == i / 4 * 64 + digit && 0 <= digit < 64; }
  }

  lemma ThirdSextet(x: byte, y: byte, z: byte)
    ensures Group(x, y, z) / 64 % 64 == y % 16 * 4 + z / 64
  {
    var i: int, j: int, k: int := x, y, z;
    var high, top, digit := i * 1024 + j * 4 + k / 64, i * 16 + j / 16, j % 16 * 4 + k / 64;
    assert Group(x, y, z) / 64 == high by { assert Group(x, y, z) == high * 64 + k % 64; }
    assert high % 64 == digit by { assert high == top * 64 + digit && 0 <= digit < 64; }
  }

  lemma FourthSextet(x: byte, y: byte, z: byte)
    ensures Group(x, y, z) % 64 == z % 64
  {
  }

  /** The characters of three octets, from six bits each. */
  function Quad(x: byte, y: byte, z: byte): (quad: string)
    ensures |quad| == 4
  {
    [CharOf(x / 4), CharOf(x % 4 * 16 + y / 16), CharOf(y % 16 * 4 + z / 64), CharOf(z % 64)]
  }

  function Encode(bytes: seq<byte>): string {
    if bytes == [] then ""
    else if |bytes| == 1 then Quad(bytes[0], 0, 0)[..2] + "=="
    else if |bytes| == 2 then Quad(bytes[0], bytes[1], 0)[..3] + "="
    else Quad(bytes[0], bytes[1], bytes[2]) + Encode(bytes[3..])
  }

  /** The character the table holds for the low six bits of v. */
  function Digit(v: nat): (c: char)
    ensures c == CharOf(v % 64)
  {
    AlphabetIsTable(v % 64);
    ALPHABET[v % 64]
  }

  /** One turn of the loop: shifts by 18, 12 and 6 bits and the mask 0x3F as quotients and remainders. */
  method PushQuad(out: string, value: nat, ghost x: byte, ghost y: byte, ghost z: byte) returns (longer: string)
    requires value == Group(x, y, z)
    ensures longer == out + Quad(x, y, z)
  {
    hide CharOf, Digit, Group;
    FirstSextet(x, y, z);
    SecondSextet(x, y, z);
    ThirdSextet(x, y, z);
    FourthSextet(x, y, z);
    longer := out + [Digit(value / 0x4_0000)];
    longer := longer + [Digit(value / 0x1000)];
    longer := longer + [Digit(value / 64)];
    longer := longer + [Digit(value)];
  }

  method Base64Encode(bytes: seq<byte>) returns (out: string)
    ensures out == Encode(bytes)
  {
    hide Encode, Quad, Group;
    out := "";
    var i, length := 0, |bytes|;
    assert bytes[0..] == bytes;
    while i + 2 < length
      invariant i <= length && out + Encode(bytes[i..]) == Encode(bytes)
    {
      EncodeFrom(bytes, i, out);
      out := PushQuad(out, Group(bytes[i], bytes[i + 1], bytes[i + 2]), bytes[i], bytes[i + 1], bytes[i + 2]);
      i := i + 3;
    }
    EncodeFrom(bytes, i, out);
    var remaining := length - i;
    if remaining == 1 {
      var quad := PushQuad("", Group(bytes[i], 0, 0), bytes[i], 0, 0);
      assert quad == Quad(bytes[i], 0, 0);
      out := out + (quad[..2] + "==");
    } else if remaining == 2 {
      var quad := PushQuad("", Group(bytes[i], bytes[i + 1], 0), bytes[i], bytes[i + 1], 0);
      assert quad == Quad(bytes[i], bytes[i + 1], 0);
      out := out + (quad[..3] + "=");
    }
  }

  /** What the turn at i appends. */
  lemma EncodeFrom(bytes: seq<byte>, i: nat, out: string)
    requires i <= |bytes|
    ensures i + 2 < |bytes| ==>
              out + Encode(bytes[i..]) == out + Quad(bytes[i], bytes[i + 1], bytes[i + 2]) + Encode(bytes[i + 3..])
    ensures i + 2 == |bytes| ==> Encode(bytes[i..]) == Quad(bytes[i], bytes[i + 1], 0)[..3] + "="
    ensures i + 1 == |bytes| ==> Encode(bytes[i..]) == Quad(bytes[i], 0, 0)[..2] + "=="
    ensures i == |bytes| ==> out + Encode(bytes[i..]) == out
  {
    hide Quad;
    if i + 2 < |bytes| { assert bytes[i..][3..] == bytes[i + 3..]; }
  }

  /** Four characters for every three octets or part of three. */
  lemma {:induction false} EncodedLength(bytes: seq<byte>)
    ensures |Encode(bytes)| == (|bytes| + 2) / 3 * 4
  {
    hide Quad;
    if |bytes| < 3 {
    } else {
      EncodedLength(bytes[3..]);
      assert Encode(bytes) == Quad(bytes[0], bytes[1], bytes[2]) + Encode(bytes[3..]);
    }
  }

  /** Characters that only fill up the last group. */
  function Pads(n: nat): nat {
    (3 - n % 3) % 3
  }

  /** The last n characters, and no others, are '='. */
  predicate PaddedBy(text: string, n: nat) {
    n <= |text| && forall i :: 0 <= i < |text| ==> (text[i] == '=' <==> i >= |text| - n)
  }

  lemma {:induction false} PaddingIsAtTheEnd(bytes: seq<byte>)
    ensures PaddedBy(Encode(bytes), Pads(|bytes|))
  {
    hide Quad, PaddedBy;
    if |bytes| >= 3 {
      QuadIsUnpadded(bytes[0], bytes[1], bytes[2]);
      PaddingIsAtTheEnd(bytes[3..]);
      LongerPaddedBy(Quad(bytes[0], bytes[1], bytes[2]), Encode(bytes[3..]), Pads(|bytes|));
    } else {
      ShortIsPadded(bytes);
    }
  }

  lemma LongerPaddedBy(head: string, text: string, n: nat)
    requires PaddedBy(text, n) && forall i :: 0 <= i < |head| ==> head[i] != '='
    ensures PaddedBy(head + text, n)
  {
    forall i | 0 <= i < |head + text| ensures (head + text)[i] == '=' <==> i >= |head + text| - n {
      assert i >= |head| ==> (head + text)[i] == text[i - |head|];
    }
  }

  lemma ShortIsPadded(bytes: seq<byte>)
    requires |bytes| < 3
    ensures PaddedBy(Encode(bytes), Pads(|bytes|))
  {
    hide Quad;
    if |bytes| == 2 {
      QuadIsUnpadded(bytes[0], bytes[1], 0);
      assert Encode(bytes) == Quad(bytes[0], bytes[1], 0)[..3] + "=";
    } else if |bytes| == 1 {
      QuadIsUnpadded(bytes[0], 0, 0);
      assert Encode(bytes) == Quad(bytes[0], 0, 0)[..2] + "==";
    }
  }

  lemma QuadIsUnpadded(x: byte, y: byte, z: byte)
    ensures forall i :: 0 <= i < 4 ==> Quad(x, y, z)[i] != '='
  {
    hide CharOf;
    SextetOfChar(x / 4);
    SextetOfChar(x % 4 * 16 + y / 16);
    SextetOfChar(y % 16 * 4 + z / 64);
    SextetOfChar(z % 64);
  }

  predicate InAlphabet(c: char) {
    c == '=' || SextetOf(c).Some?
  }

  /** An encoding holds nothing but the characters of the standard. */
  lemma {:induction false} EncodedCharacters(bytes: seq<byte>)
    ensures forall i :: 0 <= i < |Encode(bytes)| ==> InAlphabet(Encode(bytes)[i])
  {
    hide Quad, InAlphabet;
    PadIsInAlphabet();
    if bytes == [] {
    } else if |bytes| < 3 {
      QuadInAlphabet(bytes[0], if |bytes| > 1 then bytes[1] else 0, 0);
    } else {
      QuadInAlphabet(bytes[0], bytes[1], bytes[2]);
      EncodedCharacters(bytes[3..]);
    }
  }

  lemma PadIsInAlphabet()
    ensures InAlphabet('=')
  {
  }

  lemma QuadInAlphabet(x: byte, y: byte, z: byte)
    ensures forall i :: 0 <= i < 4 ==> InAlphabet(Quad(x, y, z)[i])
  {
    hide CharOf, SextetOf;
    SextetOfChar(x / 4);
    SextetOfChar(x % 4 * 16 + y / 16);
    SextetOfChar(y % 16 * 4 + z / 64);
    SextetOfChar(z % 64);
  }

  // ---------- Decoding ----------

  /** The three octets of a full group. */
  function Triple(a: sextet, b: sextet, c: sextet, d: sextet): (bytes: seq<byte>)
    ensures |bytes| == 3
  {
    [a * 4 + b / 16, b % 16 * 16 + c / 4, c % 4 * 64 + d]
  }

  /** One group of four characters: up to two padding characters, whose pad bits must be zero. */
  function DecodeGroup(group: string): (r: Option<seq<byte>>)
    requires |group| == 4
    ensures r.Some? ==> 1 <= |r.value| <= 3
  {
    var a, b, c, d := SextetOf(group[0]), SextetOf(group[1]), SextetOf(group[2]), SextetOf(group[3]);
    if a.None? || b.None? then None
    else if group[2] == '=' && group[3] == '=' then
      if b.value % 16 == 0 then Some(Triple(a.value, b.value, 0, 0)[..1]) else None
    else if c.None? then None
    else if group[3] == '=' then
      if c.value % 4 == 0 then Some(Triple(a.value, b.value, c.value, 0)[..2]) else None
    else if d.None? then None
    else Some(Triple(a.value, b.value, c.value, d.value))
  }

  /** Only the last group may be padded. */
  function Decode(text: string): Option<seq<byte>> {
    if text == "" then Some([])
    else if |text| < 4 then None
    else
      var head, rest := DecodeGroup(text[..4]), Decode(text[4..]);
      if head.None? || rest.None? || (|head.value| < 3 && |text| > 4) then None
      else Some(head.value + rest.value)
  }

  lemma TripleOfOctets(x: byte, y: byte, z: byte)
    ensures Triple(x / 4, x % 4 * 16 + y / 16, y % 16 * 4 + z / 64, z % 64) == [x, y, z]
  {
    var b: int, c: int := x % 4 * 16 + y / 16, y % 16 * 4 + z / 64;
    assert b / 16 == x % 4 && b % 16 == y / 16 && c / 4 == y % 16 && c % 4 == z / 64;
  }

  /** A group of one, two or three octets comes back. */
  lemma GroupComesBack(bytes: seq<byte>)
    requires 1 <= |bytes| <= 3
    ensures |Encode(bytes)| == 4 && DecodeGroup(Encode(bytes)) == Some(bytes)
  {
    hide CharOf, SextetOf;
    PadIsNoSextet();
    var x := bytes[0];
    var y := if |bytes| > 1 then bytes[1] else 0;
    var z := if |bytes| > 2 then bytes[2] else 0;
    TripleOfOctets(x, y, z);
    SextetOfChar(x / 4);
    SextetOfChar(x % 4 * 16 + y / 16);
    SextetOfChar(y % 16 * 4 + z / 64);
    SextetOfChar(z % 64);
    if |bytes| == 1 {
      assert Encode(bytes) == Quad(x, 0, 0)[..2] + "==" && bytes == [x, y, z][..1];
    } else if |bytes| == 2 {
      assert Encode(bytes) == Quad(x, y, 0)[..3] + "=" && bytes == [x, y, z][..2];
    } else {
      assert bytes[3..] == [] && Encode(bytes) == Quad(x, y, z) && bytes == [x, y, z];
    }
  }

  /** Decoding what was encoded gives the octets back. */
  lemma {:induction false} DecodeOfEncode(bytes: seq<byte>)
    ensures Decode(Encode(bytes)) == Some(bytes)
  {
    hide DecodeGroup, Quad;
    if bytes == [] {
    } else {
      var n := if |bytes| < 3 then |bytes| else 3;
      GroupComesBack(bytes[..n]);
      DecodeOfEncode(bytes[n..]);
      EncodeJoins(bytes[..n], bytes[n..]);
      assert bytes == bytes[..n] + bytes[n..];
      var text := Encode(bytes);
      assert text[..4] == Encode(bytes[..n]) && text[4..] == Encode(bytes[n..]);
    }
  }

  /** The sextets of a full group's octets are the ones it was put together from. */
  lemma SextetsOfTriple(a: sextet, b: sextet, c: sextet, d: sextet)
    ensures
      var t := Triple(a, b, c, d);
      t[0] / 4 == a && t[0] % 4 * 16 + t[1] / 16 == b && t[1] % 16 * 4 + t[2] / 64 == c && t[2] % 64 == d
  {
    var y: int := b % 16 * 16 + c / 4;
    assert y / 16 == b % 16 && y % 16 == c / 4;
  }

  lemma GroupIsEncoded(group: string)
    requires |group| == 4 && DecodeGroup(group).Some?
    ensures Encode(DecodeGroup(group).value) == group
  {
    hide CharOf, SextetOf, Triple;
    PadIsNoSextet();
    var a, b, c, d := SextetOf(group[0]), SextetOf(group[1]), SextetOf(group[2]), SextetOf(group[3]);
    CharOfSextet(group[0]);
    CharOfSextet(group[1]);
    CharOfSextet(group[2]);
    CharOfSextet(group[3]);
    var bytes := DecodeGroup(group).value;
    if c.None? {
      SextetsOfTriple(a.value, b.value, 0, 0);
      ShortTriple(a.value, b.value, 0);
    } else if d.None? {
      SextetsOfTriple(a.value, b.value, c.value, 0);
      ShortTriple(a.value, b.value, c.value);
    } else {
      SextetsOfTriple(a.value, b.value, c.value, d.value);
      assert bytes[3..] == [];
    }
  }

  /** Zero pad bits leave zero octets behind. */
  lemma ShortTriple(a: sextet, b: sextet, c: sextet)
    requires c % 4 == 0
    ensures Triple(a, b, c, 0)[2] == 0
    ensures b % 16 == 0 && c == 0 ==> Triple(a, b, c, 0)[1] == 0
  {
  }

  /** A full group, or anything with nothing behind it, is encoded by itself. */
  lemma EncodeJoins(head: seq<byte>, rest: seq<byte>)
    requires |head| == 3 || rest == []
    ensures Encode(head + rest) == Encode(head) + Encode(rest)
  {
    hide Quad;
    if |head| == 3 {
      assert (head + rest)[3..] == rest && head[3..] == [];
    } else {
      assert head + rest == head;
    }
  }

  /** The decoder accepts nothing but encodings, so every text it accepts is the encoding of its octets. */
  lemma {:induction false} EncodeOfDecode(text: string)
    ensures Decode(text).Some? ==> Encode(Decode(text).value) == text
  {
    if Decode(text).None? || text == "" {
    } else {
      hide DecodeGroup, Quad;
      var head, rest := DecodeGroup(text[..4]).value, Decode(text[4..]).value;
      GroupIsEncoded(text[..4]);
      EncodeOfDecode(text[4..]);
      assert text == text[..4] + text[4..];
      assert Decode(text).value == head + rest;
      EncodeJoins(head, rest);
    }
  }
}
