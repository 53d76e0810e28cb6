/** The mock blockchain client: a shared submission counter and a receipt made from a hash. */
module MockChain {
  import opened Domain
  import opened PacketParser
  import opened HexCodec
  import opened Octets
  import Decimal

  function Payload(hashHex: string, deviceId: string, timestamp: u64, nonce: u64): string {
    hashHex + "|" + deviceId + "|" + Decimal.Print(timestamp) + "|" + Decimal.Print(nonce)
  }

  /** The value of the shared counter after n submissions: it starts at 1 and wraps. */
  function Nonce(n: nat): u64 {
    (1 + n) % TWO_TO_THE_64
  }

  /** std::stoull(text, nullptr, 16) on hex digits only. */
  function HexNumber(text: string): nat
    requires forall i :: 0 <= i < |text| ==> IsHexDigit(text[i])
  {
    if text == "" then 0 else 16 * HexNumber(text[..|text| - 1]) + HexNibble(text[|text| - 1])
  }

  function BlockHeight(txHash: string): (height: u64)
    requires Hex64(txHash)
    ensures 100000 <= height < 1000000
  {
    100000 + HexNumber(txHash[..8]) % 900000
  }

  class MockBlockchainClient {
    const sha256Hex: string -> string
    var counter: u64

    constructor (sha256Hex: string -> string)
      ensures counter == 1 == Nonce(0) && this.sha256Hex == sha256Hex
    {
      this.sha256Hex := sha256Hex;
      counter := 1;
    }

    /** The n-th submission takes the n-th nonce and moves the counter to the next one. */
    method SubmitHash(hashHex: string, deviceId: string, timestamp: u64, now: string, ghost n: nat)
      returns (receipt: BlockchainReceipt)
      requires counter == Nonce(n)
      requires Hex64(sha256Hex(Payload(hashHex, deviceId, timestamp, counter)))
      modifies this
      ensures counter == Nonce(n + 1)
      ensures receipt.txHash == sha256Hex(Payload(hashHex, deviceId, timestamp, Nonce(n)))
      ensures receipt.blockHeight == BlockHeight(receipt.txHash) && receipt.submittedAt == now
    {
      var nonce := counter;
      counter := (counter + 1) % TWO_TO_THE_64;
      var payload := hashHex + "|" + deviceId + "|" + Decimal.Print(timestamp) + "|" + Decimal.Print(nonce);
      var txHash := sha256Hex(payload);
      receipt := BlockchainReceipt(txHash, BlockHeight(txHash), now);
    }
  }

  /** The payload ends in its nonce, so equal payloads carry equal nonces, whatever the other parts hold. */
  lemma PayloadFixesNonce(h1: string, d1: string, t1: u64, n1: u64, h2: string, d2: string, t2: u64, n2: u64)
    requires Payload(h1, d1, t1, n1) == Payload(h2, d2, t2, n2)
    ensures n1 == n2
  {
    var a, b := h1 + "|" + d1 + "|" + Decimal.Print(t1), h2 + "|" + d2 + "|" + Decimal.Print(t2);
    var x, y := Decimal.Print(n1), Decimal.Print(n2);
    SameTail(a, x, b, y);
    Decimal.PrintInjective(n1, n2);
  }

  lemma SameTail(a: string, x: string, b: string, y: string)
    requires a + "|" + x == b + "|" + y
    requires '|' !in x && '|' !in y
    ensures x == y
  {
    var text := a + "|" + x;
    assert text[|a|] == '|' && text[|b|] == '|';
    assert forall i :: |a| < i < |text| ==> text[i] == x[i - |a| - 1] && text[i] in x;
    assert forall i :: |b| < i < |text| ==> text[i] == y[i - |b| - 1] && text[i] in y;
    assert x == text[|a| + 1..] && y == text[|b| + 1..];
  }

  /** The first 2^64 submissions take different nonces. */
  lemma NoncesDiffer(m: nat, n: nat)
    requires m < TWO_TO_THE_64 && n < TWO_TO_THE_64 && Nonce(m) == Nonce(n)
    ensures m == n
  {
  }

  lemma {:induction false} HexNumberIsNumber(bytes: seq<byte>)
    ensures |Encode(bytes)| == 2 * |bytes| && forall i :: 0 <= i < |Encode(bytes)| ==> IsHexDigit(Encode(bytes)[i])
    ensures HexNumber(Encode(bytes)) == Number(bytes)
  {
    EncodeShape(bytes);
    DecodeOfEncode(bytes);
    if bytes == [] {
    } else {
      hide HexNibble, IsHexDigit;
      var init, last := bytes[..|bytes| - 1], bytes[|bytes| - 1];
      HexNumberIsNumber(init);
      NibbleOfDigit(last / 16);
      NibbleOfDigit(last % 16);
      HexDigitsAppend(Encode(init), DIGITS[last / 16], DIGITS[last % 16]);
      assert Encode(bytes) == Encode(init) + [DIGITS[last / 16], DIGITS[last % 16]];
    }
  }

  lemma HexDigitsAppend(text: string, c: char, d: char)
    requires (forall i :: 0 <= i < |text| ==> IsHexDigit(text[i])) && IsHexDigit(c) && IsHexDigit(d)
    ensures forall i :: 0 <= i < |text| + 2 ==> IsHexDigit((text + [c, d])[i])
    ensures HexNumber(text + [c, d]) == 256 * HexNumber(text) + 16 * HexNibble(c) + HexNibble(d)
  {
    hide HexNibble, IsHexDigit;
    assert (text + [c, d])[..|text| + 1] == text + [c] && (text + [c])[..|text|] == text;
  }

  /** The height is made of the first eight digits of the hash only: when they print n, it is 100000 + n % 900000. */
  lemma HeightOfPrinted(n: nat, rest: string)
    requires n < 0x1_0000_0000 && Hex64(Encode(BigEndian(n, 4)) + rest)
    ensures BlockHeight(Encode(BigEndian(n, 4)) + rest) == 100000 + n % 900000
  {
    hide Encode, HexNumber;
    HexNumberIsNumber(BigEndian(n, 4));
    assert Power256(4) == 0x1_0000_0000;
    NumberOfBigEndian(n, 4);
    assert (Encode(BigEndian(n, 4)) + rest)[..8] == Encode(BigEndian(n, 4));
  }

  /** The payload starts with the hash, and with hashes in hex it determines all it is made of. */
  lemma PayloadDetermines(h1: string, d1: string, t1: u64, n1: u64, h2: string, d2: string, t2: u64, n2: u64)
    requires Hex64(h1) && Hex64(h2)
    ensures h1 + "|" <= Payload(h1, d1, t1, n1)
    ensures Payload(h1, d1, t1, n1) == Payload(h2, d2, t2, n2) ==> h1 == h2 && d1 == d2 && t1 == t2 && n1 == n2
  {
    hide Decimal.Print, Hex64;
    var x1, x2, y1, y2 := Decimal.Print(t1), Decimal.Print(t2), Decimal.Print(n1), Decimal.Print(n2);
    if Payload(h1, d1, t1, n1) == Payload(h2, d2, t2, n2) {
      Decimal.PrintHoldsDigits(t1);
      Decimal.PrintHoldsDigits(t2);
      Decimal.PrintHoldsDigits(n1);
      Decimal.PrintHoldsDigits(n2);
      SameParts(h1 + "|" + d1 + "|" + x1, y1, h2 + "|" + d2 + "|" + x2, y2);
      SameParts(h1 + "|" + d1, x1, h2 + "|" + d2, x2);
      Decimal.PrintInjective(t1, t2);
      Decimal.PrintInjective(n1, n2);
      assert |h1| == |h2| == 64 by { HashLength(h1); HashLength(h2); }
      assert h1 == (h1 + "|" + d1)[..64] && h2 == (h2 + "|" + d2)[..64];
      assert d1 == (h1 + "|" + d1)[65..] && d2 == (h2 + "|" + d2)[65..];
    }
  }

  lemma HashLength(h: string)
    requires Hex64(h)
    ensures |h| == 64
  {
  }

  lemma SameParts(a: string, x: string, b: string, y: string)
    requires a + "|" + x == b + "|" + y && '|' !in x && '|' !in y
    ensures a == b && x == y
  {
    SameTail(a, x, b, y);
    var text := a + "|" + x;
    assert |a| == |text| - 1 - |x| == |b|;
    assert a == text[..|a|] && b == text[..|b|];
  }
}
