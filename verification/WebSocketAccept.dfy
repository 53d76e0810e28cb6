/** The answer to a WebSocket handshake key, section 4.2.2 of RFC 6455. */
module WebSocketAccept {
  import opened Domain
  import opened Octets
  import Sha1
  import Base64

  const GUID := "258EAFA5-E914-47DA-95CA-C5AB0DC85B11"

  function Unsigned(bits: seq<bv8>): (bytes: seq<byte>)
    ensures |bytes| == |bits|
  {
    seq(|bits|, i requires 0 <= i < |bits| => bits[i] as int)
  }

  function DigestOfKey(key: seq<byte>): (digest: seq<bv8>)
    ensures |digest| == 20
  {
    Sha1.Digest(Sha1.AllBits(key + Bytes(GUID)))
  }

  function Accept(key: seq<byte>): string {
    Base64.Encode(Unsigned(DigestOfKey(key)))
  }

  method BuildWebSocketAccept(key: seq<byte>) returns (accept: string)
    ensures accept == Accept(key)
  {
    var digest := Sha1.Sha1Digest(Sha1.AllBits(key + Bytes(GUID)));
    accept := Base64.Base64Encode(Unsigned(digest));
  }

  /** Always 28 characters, of which the last and no other is '=', and the 20 octets of the digest can be read back. */
  lemma AcceptShape(key: seq<byte>)
    ensures |Accept(key)| == 28
    ensures forall i :: 0 <= i < 28 ==> (Accept(key)[i] == '=' <==> i == 27)
    ensures Base64.Decode(Accept(key)) == Some(Unsigned(DigestOfKey(key)))
  {
    hide Base64.Encode, Base64.Decode, Sha1.Digest;
    var digest := Unsigned(DigestOfKey(key));
    Base64.EncodedLength(digest);
    Base64.PaddingIsAtTheEnd(digest);
    Base64.DecodeOfEncode(digest);
  }

  /** Two keys get the same answer exactly when their digests collide. */
  lemma AcceptDeterminesDigest(key: seq<byte>, other: seq<byte>)
    ensures Accept(key) == Accept(other) <==> DigestOfKey(key) == DigestOfKey(other)
  {
    hide DigestOfKey, Base64.Decode, Base64.Encode;
    if Accept(key) == Accept(other) {
      AcceptShape(key);
      AcceptShape(other);
      UnsignedInjective(DigestOfKey(key), DigestOfKey(other));
    }
  }

  lemma UnsignedInjective(x: seq<bv8>, y: seq<bv8>)
    requires Unsigned(x) == Unsigned(y)
    ensures x == y
  {
    forall i | 0 <= i < |x| ensures x[i] == y[i] {
      assert Unsigned(x)[i] == Unsigned(y)[i];
      assert x[i] as int as bv8 == y[i] as int as bv8;
    }
  }

  /** The key and the GUID of section 1.3 of RFC 6455, in this order, hashed and encoded. */
  lemma AcceptOfKey(key: string)
    ensures Accept(Bytes(key)) ==
            Base64.Encode(Unsigned(Sha1.Digest(Sha1.AllBits(Bytes(key + "258EAFA5-E914-47DA-95CA-C5AB0DC85B11")))))
  {
    hide Sha1.Digest, Base64.Encode;
    assert Bytes(key) + Bytes(GUID) == Bytes(key + GUID);
  }
}
