/** SHA-1 as FIPS 180-4 defines it, and the loops that compute it in place. */
module Sha1 {
  import opened Octets

  type word = bv32

  // ---------- Sections 3.2, 4.1.1 and 4.2.1: functions and constants ----------

  function Rotl(x: word, n: nat): word
    requires n < 32
  {
    x.RotateLeft(n)
  }

  /** Addition modulo 2^32. */
  function Add(x: word, y: word): word {
    x + y
  }

  function Ch(x: word, y: word, z: word): word {
    (x & y) ^ (!x & z)
  }

  function Parity(x: word, y: word, z: word): word {
    x ^ y ^ z
  }

  function Maj(x: word, y: word, z: word): word {
    (x & y) ^ (x & z) ^ (y & z)
  }

  function F(t: nat, x: word, y: word, z: word): word {
    if t < 20 then Ch(x, y, z)
    else if t < 40 then Parity(x, y, z)
    else if t < 60 then Maj(x, y, z)
    else Parity(x, y, z)
  }

  function K(t: nat): word {
    if t < 20 then 0x5A827999
    else if t < 40 then 0x6ED9EBA1
    else if t < 60 then 0x8F1BBCDC
    else 0xCA62C1D6
  }

  /** The constants are the first thirty-two bits of the square roots of 2, 3, 5 and 10, two of them before the point. */
  lemma ConstantsAreRoots(t: nat)
    ensures
      var m, k := if t < 20 then 2 else if t < 40 then 3 else if t < 60 then 5 else 10, K(t) as int;
      k * k <= m * 0x1000_0000_0000_0000 < (k + 1) * (k + 1)
  {
    if t < 20 {
      assert K(t) as int == 0x5A827999;
    } else if t < 40 {
      assert K(t) as int == 0x6ED9EBA1;
    } else if t < 60 {
      assert K(t) as int == 0x8F1BBCDC;
    } else {
      assert K(t) as int == 0xCA62C1D6;
    }
  }

  /** The encoder's OR forms. */
  lemma ChByOr(x: word, y: word, z: word)
    ensures (x & y) | (!x & z) == Ch(x, y, z)
  {
  }

  lemma MajByOr(x: word, y: word, z: word)
    ensures (x & y) | (x & z) | (y & z) == Maj(x, y, z)
  {
  }

  lemma RotlByShifts(x: word)
    ensures (x << 1) | (x >> 31) == Rotl(x, 1)
    ensures (x << 5) | (x >> 27) == Rotl(x, 5)
    ensures (x << 30) | (x >> 2) == Rotl(x, 30)
  {
  }

  // ---------- Section 5: padding, parsing and the initial value ----------

  function Zeros(n: nat): (zeros: seq<bv8>)
    ensures |zeros| == n && forall i :: 0 <= i < n ==> zeros[i] == 0
  {
    seq(n, _ => 0)
  }

  /** A number below 256 as eight bits. */
  function Bits(b: byte): bv8 {
    b as bv8
  }

  function AllBits(bytes: seq<byte>): (bits: seq<bv8>)
    ensures |bits| == |bytes|
  {
    seq(|bytes|, i requires 0 <= i < |bytes| => Bits(bytes[i]))
  }

  /** Octets of zeros between the octet 0x80 and the length. */
  function ZeroOctets(length: nat): (n: nat)
    ensures n < 64 && (length + 1 + n) % 64 == 56
  {
    (119 - length % 64) % 64
  }

  /** Section 5.1.1; the length is taken modulo 2^64 bits, which a message under 2^61 octets does not reach. */
  function Padded(message: seq<bv8>): seq<bv8> {
    message + [0x80] + Zeros(ZeroOctets(|message|)) + AllBits(BigEndian(8 * |message|, 8))
  }

  function Word(b0: bv8, b1: bv8, b2: bv8, b3: bv8): word {
    ((b0 as word) << 24) | ((b1 as word) << 16) | ((b2 as word) << 8) | (b3 as word)
  }

  function OctetsOf(w: word): (octets: seq<bv8>)
    ensures |octets| == 4
  {
    [((w >> 24) & 0xFF) as bv8, ((w >> 16) & 0xFF) as bv8, ((w >> 8) & 0xFF) as bv8, (w & 0xFF) as bv8]
  }

  lemma WordOfOctets(w: word)
    ensures Word(OctetsOf(w)[0], OctetsOf(w)[1], OctetsOf(w)[2], OctetsOf(w)[3]) == w
  {
  }

  function InitialHash(): State {
    State(0x67452301, 0xEFCDAB89, 0x98BADCFE, 0x10325476, 0xC3D2E1F0)
  }

  // ---------- Section 6.1.2: the hash computation ----------

  datatype State = State(a: word, b: word, c: word, d: word, e: word)

  /** W_t of a block of 64 octets. */
  function Schedule(block: seq<bv8>, t: nat): word
    requires |block| == 64
  {
    if t < 16 then Word(block[4 * t], block[4 * t + 1], block[4 * t + 2], block[4 * t + 3])
    else Rotl(Schedule(block, t - 3) ^ Schedule(block, t - 8) ^ Schedule(block, t - 14) ^ Schedule(block, t - 16), 1)
  }

  function Round(s: State, t: nat, w: word): State {
    State(Add(Add(Add(Add(Rotl(s.a, 5), F(t, s.b, s.c, s.d)), s.e), K(t)), w), s.a, Rotl(s.b, 30), s.c, s.d)
  }

  /** The working variables after t rounds. */
  function Rounds(s: State, block: seq<bv8>, t: nat): State
    requires |block| == 64
  {
    if t == 0 then s else Round(Rounds(s, block, t - 1), t - 1, Schedule(block, t - 1))
  }

  function Plus(x: State, y: State): State {
    State(Add(x.a, y.a), Add(x.b, y.b), Add(x.c, y.c), Add(x.d, y.d), Add(x.e, y.e))
  }

  function Compress(h: State, block: seq<bv8>): State
    requires |block| == 64
  {
    Plus(h, Rounds(h, block, 80))
  }

  function Block(message: seq<bv8>, i: nat): (block: seq<bv8>)
    requires 64 * i + 64 <= |message|
    ensures |block| == 64
  {
    message[64 * i..64 * i + 64]
  }

  /** H^(i): the hash value after i blocks. */
  function HashValue(message: seq<bv8>, i: nat): State
    requires 64 * i <= |message|
  {
    if i == 0 then InitialHash() else Compress(HashValue(message, i - 1), Block(message, i - 1))
  }

  function DigestOf(h: State): (digest: seq<bv8>)
    ensures |digest| == 20
  {
    OctetsOf(h.a) + OctetsOf(h.b) + OctetsOf(h.c) + OctetsOf(h.d) + OctetsOf(h.e)
  }

  function Digest(message: seq<bv8>): (digest: seq<bv8>)
    ensures |digest| == 20
  {
    DigestOf(HashValue(Padded(message), |Padded(message)| / 64))
  }

  /** Cutting a block into words loses nothing, ... */
  lemma ParsingLosesNothing(a: seq<bv8>, b: seq<bv8>)
    requires |a| == 64 && |b| == 64
    requires forall t :: 0 <= t < 16 ==> Schedule(a, t) == Schedule(b, t)
    ensures a == b
  {
    hide Word, Schedule;
    forall i | 0 <= i < 64 ensures a[i] == b[i] {
      var t := i / 4;
      assert i == 4 * t || i == 4 * t + 1 || i == 4 * t + 2 || i == 4 * t + 3;
      FirstWords(a, t);
      FirstWords(b, t);
      WordsAlike(a[4 * t], a[4 * t + 1], a[4 * t + 2], a[4 * t + 3], b[4 * t], b[4 * t + 1], b[4 * t + 2], b[4 * t + 3]);
    }
  }

  lemma FirstWords(block: seq<bv8>, t: nat)
    requires |block| == 64 && t < 16
    ensures Schedule(block, t) == Word(block[4 * t], block[4 * t + 1], block[4 * t + 2], block[4 * t + 3])
  {
    hide Word;
  }

  lemma WordsAlike(a0: bv8, a1: bv8, a2: bv8, a3: bv8, b0: bv8, b1: bv8, b2: bv8, b3: bv8)
    requires Word(a0, a1, a2, a3) == Word(b0, b1, b2, b3)
    ensures a0 == b0 && a1 == b1 && a2 == b2 && a3 == b3
  {
  }

  /** ... and neither does writing the hash value out as octets. */
  lemma DigestLosesNothing(h: State, k: State)
    requires DigestOf(h) == DigestOf(k)
    ensures h == k
  {
    hide OctetsOf, Word;
    WordsOfDigest(h);
    WordsOfDigest(k);
  }

  /** The five words of a digest are the hash value. */
  lemma WordsOfDigest(h: State)
    ensures
      var d := DigestOf(h);
      && Word(d[0], d[1], d[2], d[3]) == h.a && Word(d[4], d[5], d[6], d[7]) == h.b && Word(d[8], d[9], d[10], d[11]) == h.c
      && Word(d[12], d[13], d[14], d[15]) == h.d && Word(d[16], d[17], d[18], d[19]) == h.e
  {
    hide OctetsOf, Word;
    WordOfOctets(h.a);
    WordOfOctets(h.b);
    WordOfOctets(h.c);
    WordOfOctets(h.d);
    WordOfOctets(h.e);
  }

  // ---------- Padding ----------

  lemma LastBits(whole: nat)
    ensures (512 * whole + 448) % 512 == 448
  {
  }

  /** Two paddings of one message differ by whole blocks. */
  lemma LeastZeros(whole: int, other: int, k: nat, least: nat)
    requires least < 512 && 512 * other - k == 512 * whole - least
    ensures k >= least
  {
    assert k == 512 * (other - whole) + least;
  }

  /** Padding fills the last block with the fewest zero bits that section 5.1.1 allows. */
  lemma PaddingMeetsStandard(n: nat, k: nat)
    ensures (8 * n + 1 + (7 + 8 * ZeroOctets(n))) % 512 == 448
    ensures (8 * n + 1 + k) % 512 == 448 ==> k >= 7 + 8 * ZeroOctets(n)
  {
    hide ZeroOctets;
    var z := ZeroOctets(n);
    var whole := (n + 1 + z) / 64;
    assert n + 1 + z == 64 * whole + 56;
    assert 8 * n + 1 + (7 + 8 * z) == 512 * whole + 448;
    LastBits(whole);
    if (8 * n + 1 + k) % 512 == 448 {
      LeastZeros(whole, (8 * n + 1 + k) / 512, k, 7 + 8 * z);
    }
  }

  /** The padded message is a number of whole blocks, ends in the length of the message in bits and starts with the message. */
  lemma PaddedParts(message: seq<bv8>)
    ensures |Padded(message)| % 64 == 0
    ensures message <= Padded(message)
    ensures Padded(message)[|Padded(message)| - 8..] == AllBits(BigEndian(8 * |message|, 8))
    ensures |message| < 0x2000_0000_0000_0000 ==> Number(BigEndian(8 * |message|, 8)) == 8 * |message|
  {
    hide BigEndian, Number, ZeroOctets;
    var n, z := |message|, ZeroOctets(|message|);
    assert |Padded(message)| == n + 1 + z + 8;
    assert n + 1 + z == (n + 1 + z) / 64 * 64 + 56;
    SmallPowers();
    if n < 0x2000_0000_0000_0000 { NumberOfBigEndian(8 * n, 8); }
  }

  /** No two messages are padded alike: where the shorter one has zeros the longer one still has its 0x80. */
  lemma PaddingIsInjective(m: seq<bv8>, n: seq<bv8>)
    requires Padded(m) == Padded(n)
    ensures m == n
  {
    hide BigEndian, AllBits, ZeroOctets;
    MarkBehindMessage(m, |n|);
    MarkBehindMessage(n, |m|);
    assert Padded(m)[..|m|] == m && Padded(n)[..|n|] == n;
  }

  lemma MarkBehindMessage(m: seq<bv8>, i: nat)
    ensures |Padded(m)| == |m| + 1 + ZeroOctets(|m|) + 8
    ensures i == |m| ==> Padded(m)[i] == 0x80
    ensures |m| < i <= |m| + ZeroOctets(|m|) ==> Padded(m)[i] == 0
  {
  }

  // ---------- The loops ----------

  /** rol. */
  function Rol(value: word, bits: nat): word
    requires bits < 32
  {
    (value << bits) | (value >> (32 - bits))
  }

  lemma ZerosUntilFull(length: nat, zeros: nat)
    requires zeros <= ZeroOctets(length)
    ensures (length + 1 + zeros) % 64 == 56 <==> zeros == ZeroOctets(length)
  {
    hide ZeroOctets;
    var z := ZeroOctets(length);
    if (length + 1 + zeros) % 64 == 56 {
      var whole, other := (length + 1 + z) / 64, (length + 1 + zeros) / 64;
      assert length + 1 + z == 64 * whole + 56;
      assert length + 1 + zeros == 64 * other + 56;
      assert z - zeros == 64 * (whole - other);
    }
  }

  lemma AllBitsLonger(bytes: seq<byte>, b: byte)
    ensures AllBits(bytes + [b]) == AllBits(bytes) + [Bits(b)]
  {
  }

  /** message.push_back until the last block is full. */
  method PadMessage(input: seq<bv8>) returns (message: seq<bv8>)
    ensures message == Padded(input)
  {
    hide BigEndian, ShiftRight, ZeroOctets;
    var bitLength := 8 * |input|;
    message := input + [0x80];
    ghost var zeros := 0;
    while |message| % 64 != 56
      invariant zeros <= ZeroOctets(|input|)
      invariant message == input + [0x80] + Zeros(zeros)
      decreases ZeroOctets(|input|) - zeros
    {
      ZerosUntilFull(|input|, zeros);
      message := message + [0];
      zeros := zeros + 1;
    }
    ZerosUntilFull(|input|, zeros);
    BigEndianByShifts(bitLength, 8, 0);
    ghost var before := message;
    for pushed := 0 to 8
      invariant message == before + AllBits(BigEndian(ShiftRight(bitLength, 8 - pushed), pushed))
    {
      BigEndianByShifts(bitLength, 8, pushed);
      AllBitsLonger(BigEndian(ShiftRight(bitLength, 8 - pushed), pushed), ShiftRight(bitLength, 8 - pushed - 1) % 256);
      message := message + [Bits(ShiftRight(bitLength, 8 - pushed - 1) % 256)];
    }
  }

  lemma BlockAt(message: seq<bv8>, chunk: nat)
    requires chunk % 64 == 0 && chunk + 64 <= |message|
    ensures 64 * (chunk / 64) == chunk && Block(message, chunk / 64) == message[chunk..chunk + 64]
  {
  }

  /** The words a block starts with are read from its place in the message. */
  lemma FirstWordAt(message: seq<bv8>, chunk: nat, t: nat)
    requires chunk % 64 == 0 && chunk + 64 <= |message| && t < 16
    ensures 64 * (chunk / 64) + 64 <= |message|
    ensures var offset := chunk + 4 * t;
            Schedule(Block(message, chunk / 64), t) ==
            Word(message[offset], message[offset + 1], message[offset + 2], message[offset + 3])
  {
    BlockAt(message, chunk);
    hide Word, Schedule, Block;
    FirstWords(message[chunk..chunk + 64], t);
  }

  /** Fills w with the message schedule of one block. */
  method FillSchedule(message: seq<bv8>, chunk: nat, w: array<word>)
    requires chunk % 64 == 0 && chunk + 64 <= |message| && w.Length == 80
    modifies w
    ensures forall t :: 0 <= t < 80 ==> w[t] == Schedule(Block(message, chunk / 64), t)
  {
    hide Word, Rotl, Rol, Schedule, Block;
    ghost var block := Block(message, chunk / 64);
    for i := 0 to 16
      invariant forall t :: 0 <= t < i ==> w[t] == Schedule(block, t)
    {
      var offset := chunk + 4 * i;
      FirstWordAt(message, chunk, i);
      w[i] := Word(message[offset], message[offset + 1], message[offset + 2], message[offset + 3]);
    }
    for i := 16 to 80
      invariant forall t :: 0 <= t < i ==> w[t] == Schedule(block, t)
    {
      ScheduleStep(block, i);
      w[i] := Rol(w[i - 3] ^ w[i - 8] ^ w[i - 14] ^ w[i - 16], 1);
    }
  }

  lemma RolIsRotl(x: word)
    ensures Rol(x, 1) == Rotl(x, 1) && Rol(x, 5) == Rotl(x, 5) && Rol(x, 30) == Rotl(x, 30)
  {
    RotlByShifts(x);
  }

  lemma ScheduleStep(block: seq<bv8>, t: nat)
    requires |block| == 64
    ensures t < 16 ==> Schedule(block, t) == Word(block[4 * t], block[4 * t + 1], block[4 * t + 2], block[4 * t + 3])
    ensures t >= 16 ==>
      Schedule(block, t) ==
      Rol(Schedule(block, t - 3) ^ Schedule(block, t - 8) ^ Schedule(block, t - 14) ^ Schedule(block, t - 16), 1)
  {
    hide Word, Rotl, Rol;
    if t >= 16 {
      RolIsRotl(Schedule(block, t - 3) ^ Schedule(block, t - 8) ^ Schedule(block, t - 14) ^ Schedule(block, t - 16));
    }
  }

  /** The 80 rounds over one block. */
  method RunRounds(h: State, ghost block: seq<bv8>, w: array<word>) returns (s: State)
    requires |block| == 64 && w.Length == 80
    requires forall t :: 0 <= t < 80 ==> w[t] == Schedule(block, t)
    ensures s == Rounds(h, block, 80)
  {
    hide Schedule, Round;
    var a, b, c, d, e := h.a, h.b, h.c, h.d, h.e;
    for i := 0 to 80
      invariant State(a, b, c, d, e) == Rounds(h, block, i)
    {
      a, b, c, d, e := RunRound(i, a, b, c, d, e, w[i]);
    }
    s := State(a, b, c, d, e);
  }

  /** One turn of the loop. */
  method RunRound(i: nat, a0: word, b0: word, c0: word, d0: word, e0: word, wi: word)
    returns (a: word, b: word, c: word, d: word, e: word)
    requires i < 80
    ensures State(a, b, c, d, e) == Round(State(a0, b0, c0, d0, e0), i, wi)
  {
    hide Rotl, Rol, Ch, Maj, Parity, Add;
    a, b, c, d, e := a0, b0, c0, d0, e0;
    var f: word, k: word;
    if i < 20 {
      f := (b & c) | (!b & d);
      k := 0x5A827999;
      ChByOr(b, c, d);
    } else if i < 40 {
      f := Parity(b, c, d);
      k := 0x6ED9EBA1;
    } else if i < 60 {
      f := (b & c) | (b & d) | (c & d);
      k := 0x8F1BBCDC;
      MajByOr(b, c, d);
    } else {
      f := Parity(b, c, d);
      k := 0xCA62C1D6;
    }
    RolIsRotl(a);
    RolIsRotl(b);
    var temp := Add(Add(Add(Add(Rol(a, 5), f), e), k), wi);
    e := d;
    d := c;
    c := Rol(b, 30);
    b := a;
    a := temp;
  }

  lemma HashValueStart(message: seq<bv8>)
    ensures HashValue(message, 0) == InitialHash()
  {
  }

  lemma HashValueStep(message: seq<bv8>, i: nat)
    requires 64 * i + 64 <= |message|
    ensures HashValue(message, i + 1) == Plus(HashValue(message, i), Rounds(HashValue(message, i), Block(message, i), 80))
  {
    hide Plus, Rounds, Block, InitialHash;
  }

  method Sha1Digest(input: seq<bv8>) returns (digest: seq<bv8>)
    ensures digest == Digest(input)
  {
    hide Padded, Rounds, Schedule, OctetsOf, HashValue, Add;
    var message := PadMessage(input);
    PaddedParts(input);
    HashValueStart(message);
    var h0: word, h1: word, h2: word, h3: word, h4: word := 0x67452301, 0xEFCDAB89, 0x98BADCFE, 0x10325476, 0xC3D2E1F0;
    var w := new word[80];
    var chunk := 0;
    while chunk < |message|
      invariant chunk % 64 == 0 && chunk <= |message|
      invariant State(h0, h1, h2, h3, h4) == HashValue(message, chunk / 64)
    {
      FillSchedule(message, chunk, w);
      var s := RunRounds(State(h0, h1, h2, h3, h4), Block(message, chunk / 64), w);
      HashValueStep(message, chunk / 64);
      h0, h1, h2, h3, h4 := Add(h0, s.a), Add(h1, s.b), Add(h2, s.c), Add(h3, s.d), Add(h4, s.e);
      chunk := chunk + 64;
    }
    digest := OctetsOf(h0) + OctetsOf(h1) + OctetsOf(h2) + OctetsOf(h3) + OctetsOf(h4);
  }
}
