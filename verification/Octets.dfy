/** Octets and big-endian numbers; n >> 8 and n & 0xFF of an unsigned n are n / 256 and n % 256. */
module Octets {

  type byte = n: int | 0 <= n < 256

  /** Text as octets; every character of a std::string is one. */
  function Bytes(text: string): (bytes: seq<byte>)
    ensures |bytes| == |text|
  {
    seq(|text|, i requires 0 <= i < |text| => text[i] as int % 256)
  }

  function Power256(k: nat): (p: nat)
    ensures p > 0
  {
    if k == 0 then 1 else 256 * Power256(k - 1)
  }

  /** n >> 8k. */
  function ShiftRight(n: nat, k: nat): nat {
    if k == 0 then n else ShiftRight(n, k - 1) / 256
  }

  /** The low k octets of n, most significant first. */
  function BigEndian(n: nat, k: nat): (bytes: seq<byte>)
    ensures |bytes| == k
  {
    if k == 0 then [] else BigEndian(n / 256, k - 1) + [n % 256]
  }

  function Number(bytes: seq<byte>): nat {
    if bytes == [] then 0 else 256 * Number(bytes[..|bytes| - 1]) + bytes[|bytes| - 1]
  }

  lemma {:induction false} NumberOfBigEndian(n: nat, k: nat)
    requires n < Power256(k)
    ensures Number(BigEndian(n, k)) == n
  {
    if k == 0 {
    } else {
      NumberOfBigEndian(n / 256, k - 1);
      assert BigEndian(n, k)[..k - 1] == BigEndian(n / 256, k - 1);
    }
  }

  lemma {:induction false} BigEndianOfNumber(bytes: seq<byte>)
    ensures BigEndian(Number(bytes), |bytes|) == bytes
    ensures Number(bytes) < Power256(|bytes|)
  {
    if bytes == [] {
    } else {
      BigEndianOfNumber(bytes[..|bytes| - 1]);
      assert Number(bytes) / 256 == Number(bytes[..|bytes| - 1]);
    }
  }

  /** Shifting down octet by octet pushes the big-endian octets in order. */
  lemma {:induction false} BigEndianByShifts(n: nat, k: nat, j: nat)
    requires j < k
    ensures ShiftRight(n, 0) == n
    ensures BigEndian(ShiftRight(n, k - j - 1), j + 1) == BigEndian(ShiftRight(n, k - j), j) + [ShiftRight(n, k - j - 1) % 256]
  {
  }

  lemma SmallPowers()
    ensures Power256(1) == 0x100 && Power256(2) == 0x1_0000 && Power256(8) == 0x1_0000_0000_0000_0000
  {
    assert Power256(4) == 0x1_0000_0000;
    assert Power256(6) == 0x1_0000_0000_0000;
  }

  /** The octet of the higher bits stands in front. */
  lemma HighOctetFirst(high: byte, low: byte)
    ensures BigEndian(256 * high + low, 2) == [high, low]
  {
    assert (256 * high + low) / 256 == high && (256 * high + low) % 256 == low;
    assert BigEndian(high, 1) == BigEndian(high / 256, 0) + [high % 256];
  }
}
