/** Reading one HTTP request from a connection that delivers its bytes in chunks of its own choosing. */
module RequestReader {
  import opened Domain
  import opened PacketParser
  import Decimal

  /** kMaxRequestBytes. */
  const MAX_REQUEST := 1024 * 1024

  /** sizeof(buffer): the most one recv hands over. */
  const BUFFER_SIZE := 4096

  const BLANK_LINE := "\r\n\r\n"

  // ---------- The declared length ----------

  predicate StartsInAnyCase(s: string, t: string) {
    |t| <= |s| && forall i :: 0 <= i < |t| ==> Lower(s[i]) == Lower(t[i])
  }

  /** The capture of Content-Length:\s*([0-9]+) when s starts with a match of it. */
  function MatchLength(s: string): (r: Option<string>)
    ensures r.Some? ==> Decimal.AllDigits(r.value)
  {
    if !StartsInAnyCase(s, "Content-Length:") then None else
    var digits := DigitRun(DropSpaces(s[15..]));
    if digits == "" then None else Some(digits)
  }

  /** The capture at the leftmost match. */
  function ExtractLength(s: string): (r: Option<string>)
    ensures r.Some? ==> Decimal.AllDigits(r.value)
  {
    if MatchLength(s).Some? then MatchLength(s)
    else if s == "" then None
    else ExtractLength(s[1..])
  }

  /** No length, or one that does not fit 64 bits, is length 0. */
  function ParseContentLength(headers: string): u64 {
    match ExtractLength(headers)
    case None => 0
    case Some(digits) => if Decimal.ToU64(digits).Some? then Decimal.ToU64(digits).value else 0
  }

  // ---------- Chunks ----------

  function Joined(chunks: seq<string>): string {
    if chunks == [] then "" else chunks[0] + Joined(chunks[1..])
  }

  ghost predicate Received(chunks: seq<string>) {
    forall i :: 0 <= i < |chunks| ==> 1 <= |chunks[i]| <= BUFFER_SIZE
  }

  /** A peer's bytes as successive recv calls return them; behind the last chunk recv returns 0 or an error. */
  class Connection {
    var pending: seq<string>

    constructor (chunks: seq<string>)
      ensures pending == chunks
    {
      pending := chunks;
    }

    method Recv() returns (received: Option<string>)
      modifies this
      ensures old(pending) == [] ==> received == None && pending == []
      ensures old(pending) != [] ==> received == Some(old(pending)[0]) && pending == old(pending)[1..]
    {
      if pending == [] {
        received := None;
      } else {
        received := Some(pending[0]);
        pending := pending[1..];
      }
    }
  }

  /** The first k chunks are the fewest that hold target characters, or all there are. */
  ghost predicate Fewest(chunks: seq<string>, target: nat, k: nat) {
    && k <= |chunks|
    && (k == |chunks| || |Joined(chunks[..k])| >= target)
    && forall j :: 0 <= j < k ==> |Joined(chunks[..j])| < target
  }

  /** expectedTotalSize of a stream with its blank line at h: a sum of 64-bit numbers. */
  function Expected(contentLength: u64, h: nat): nat {
    (h + 4 + contentLength) % TWO_TO_THE_64
  }

  /**
    How much of a stream is read for: its header block and the body it declares, but at most 1 MiB.
    Even when the sum wraps around, the header block is read before anything can be decided.
   */
  function Target(stream: string): nat {
    match IndexOf(stream, BLANK_LINE)
    case None => MAX_REQUEST
    case Some(h) => Least(Greatest(Expected(ParseContentLength(stream[..h]), h), h + 4), MAX_REQUEST)
  }

  function Least(m: nat, n: nat): nat {
    if m < n then m else n
  }

  function Greatest(m: nat, n: nat): nat {
    if m > n then m else n
  }

  lemma ExpectedOfNoBody(h: nat)
    ensures Expected(0, h) <= h + 4
  {
  }

  method ReadHttpRequest(connection: Connection) returns (raw: string)
    requires Received(connection.pending)
    modifies connection
    ensures raw == Request(old(connection.pending))
    ensures Joined(old(connection.pending)) == raw + Joined(connection.pending)
  {
    ghost var k;
    raw, k := ReadChunks(connection);
    RequestIsRead(old(connection.pending), k);
    JoinedAt(old(connection.pending), k);
  }

  /** The loop, with the number of chunks it took. */
  method ReadChunks(connection: Connection) returns (raw: string, ghost k: nat)
    requires Received(connection.pending)
    modifies connection
    ensures Fewest(old(connection.pending), Target(Joined(old(connection.pending))), k)
    ensures raw == Joined(old(connection.pending)[..k]) && connection.pending == old(connection.pending)[k..]
  {
    hide Joined, IndexOf, ParseContentLength, Expected;
    ghost var chunks := connection.pending;
    ghost var stream := Joined(chunks);
    ghost var end := IndexOf(stream, BLANK_LINE);
    raw, k := "", 0;
    JoinedAt(chunks, 0);
    var expectedTotalSize := 0;
    var haveExpectedSize := false;
    while |raw| < MAX_REQUEST
      invariant k <= |chunks| && connection.pending == chunks[k..] && raw == Joined(chunks[..k]) && raw <= stream
      invariant forall j :: 0 <= j < k ==> |Joined(chunks[..j])| < Target(stream)
      invariant |raw| < Target(stream) || |raw| >= MAX_REQUEST
      invariant haveExpectedSize ==>
        end.Some? && end.value + 4 <= |raw|
        && expectedTotalSize == Expected(ParseContentLength(stream[..end.value]), end.value)
      invariant !haveExpectedSize ==> end.None? || end.value + 4 > |raw|
      decreases MAX_REQUEST - |raw|
    {
      JoinedAt(chunks, k);
      var received := connection.Recv();
      if received.None? {
        break;
      }
      raw := raw + received.value;
      k := k + 1;
      JoinedAt(chunks, k);
      FoundInPrefix(stream, raw, BLANK_LINE);
      var headerEnd := IndexOf(raw, BLANK_LINE);
      if headerEnd.None? {
        continue;
      }
      assert raw[..headerEnd.value] == stream[..headerEnd.value];
      if !haveExpectedSize {
        var headers := raw[..headerEnd.value];
        var contentLength := ParseContentLength(headers);
        expectedTotalSize := Expected(contentLength, headerEnd.value);
        haveExpectedSize := true;
        ExpectedOfNoBody(headerEnd.value);
        if contentLength == 0 {
          break;
        }
      }
      if haveExpectedSize && |raw| >= expectedTotalSize {
        break;
      }
    }
  }

  lemma {:induction false} JoinedAt(chunks: seq<string>, k: nat)
    requires k <= |chunks|
    ensures Joined(chunks[..0]) == ""
    ensures k < |chunks| ==> Joined(chunks[..k + 1]) == Joined(chunks[..k]) + chunks[k]
    ensures Joined(chunks) == Joined(chunks[..k]) + Joined(chunks[k..])
  {
    if k == 0 {
      assert chunks[0..] == chunks;
      if chunks != [] { assert chunks[..1][1..] == []; }
    } else {
      var rest := chunks[1..];
      JoinedAt(rest, k - 1);
      assert chunks[..k][1..] == rest[..k - 1] && chunks[k..] == rest[k - 1..];
      if k < |chunks| { assert chunks[..k + 1][1..] == rest[..k]; }
    }
  }

  /** A text found in a prefix is found at the same place in the whole, and is missed only when it does not fit. */
  lemma {:induction false} FoundInPrefix(s: string, p: string, t: string)
    requires p <= s && t != ""
    ensures IndexOf(p, t) == (if IndexOf(s, t).Some? && IndexOf(s, t).value + |t| <= |p| then IndexOf(s, t) else None)
  {
    if t <= s {
      assert t <= p <==> |t| <= |p|;
      if |t| > |p| { TooShort(p, t); }
    } else if s == "" {
      assert p == "";
    } else if p == "" {
      assert IndexOf(p, t) == None;
    } else {
      assert !(t <= p);
      FoundInPrefix(s[1..], p[1..], t);
    }
  }

  lemma {:induction false} TooShort(p: string, t: string)
    requires |p| < |t|
    ensures IndexOf(p, t) == None
  {
    if p == "" {
    } else {
      TooShort(p[1..], t);
    }
  }

  // ---------- What a request reads as ----------

  /** The fewest chunks for a target, as the loop counts them. */
  function Count(chunks: seq<string>, target: int): (k: nat)
    ensures k <= |chunks|
  {
    if chunks == [] || target <= 0 then 0 else 1 + Count(chunks[1..], target - |chunks[0]|)
  }

  lemma {:induction false} CountIsFewest(chunks: seq<string>, target: nat)
    ensures Fewest(chunks, target, Count(chunks, target))
  {
    var k := Count(chunks, target);
    forall j | 0 <= j <= |chunks|
      ensures j < k ==> |Joined(chunks[..j])| < target
      ensures j == k ==> k == |chunks| || |Joined(chunks[..k])| >= target
    {
      CountAt(chunks, target, j);
    }
  }

  lemma {:induction false} CountAt(chunks: seq<string>, target: int, j: nat)
    requires j <= |chunks|
    ensures j < Count(chunks, target) ==> |Joined(chunks[..j])| < target
    ensures j == Count(chunks, target) < |chunks| ==> |Joined(chunks[..j])| >= target
  {
    if j == 0 {
    } else {
      assert chunks[..j][1..] == chunks[1..][..j - 1];
      if target > 0 { CountAt(chunks[1..], target - |chunks[0]|, j - 1); }
    }
  }

  /** There is one fewest number of chunks. */
  lemma FewestIsUnique(chunks: seq<string>, target: nat, k: nat, l: nat)
    requires Fewest(chunks, target, k) && Fewest(chunks, target, l)
    ensures k == l
  {
  }

  /** What ReadHttpRequest returns. */
  function Request(chunks: seq<string>): string {
    Joined(chunks[..Count(chunks, Target(Joined(chunks)))])
  }

  lemma RequestIsRead(chunks: seq<string>, k: nat)
    requires Fewest(chunks, Target(Joined(chunks)), k)
    ensures Request(chunks) == Joined(chunks[..k])
  {
    hide Target, Fewest, Joined;
    CountIsFewest(chunks, Target(Joined(chunks)));
    FewestIsUnique(chunks, Target(Joined(chunks)), k, Count(chunks, Target(Joined(chunks))));
  }

  /** The result is a prefix of the stream that reaches the target and overshoots it by less than one buffer. */
  lemma RequestSize(chunks: seq<string>)
    requires Received(chunks)
    ensures Request(chunks) <= Joined(chunks)
    ensures |Request(chunks)| < Target(Joined(chunks)) + 4096 <= 0x10_0000 + 4096
    ensures |Request(chunks)| >= Target(Joined(chunks)) || Request(chunks) == Joined(chunks)
  {
    hide Joined, Expected, Target;
    var target := Target(Joined(chunks));
    var k := Count(chunks, target);
    CountIsFewest(chunks, target);
    hide Count;
    JoinedAt(chunks, k);
    if k > 0 { JoinedAt(chunks, k - 1); }
    assert chunks[..|chunks|] == chunks;
    TargetIsBounded(Joined(chunks));
  }

  lemma TargetIsBounded(stream: string)
    ensures 0 < Target(stream) <= 0x10_0000
  {
    hide IndexOf, Expected, ParseContentLength;
  }

  // ---------- Independence of chunking ----------

  /** The header block and the declared body of a stream. */
  function WholeSize(stream: string): (size: nat)
    requires IndexOf(stream, BLANK_LINE).Some?
  {
    var h := IndexOf(stream, BLANK_LINE).value;
    h + 4 + ParseContentLength(stream[..h])
  }

  ghost predicate Complete(stream: string) {
    IndexOf(stream, BLANK_LINE).Some? && WholeSize(stream) <= |stream|
  }

  /** Below 1 MiB nothing wraps around and the target is the whole request. */
  lemma TargetOfComplete(stream: string)
    requires Complete(stream)
    ensures WholeSize(stream) <= MAX_REQUEST ==> Target(stream) == WholeSize(stream)
    ensures Target(stream) <= MAX_REQUEST
  {
    hide IndexOf, ParseContentLength;
  }

  /** The stream one character at a time. */
  function Singles(stream: string): (chunks: seq<string>)
    ensures Received(chunks) && |chunks| == |stream|
  {
    seq(|stream|, i requires 0 <= i < |stream| => [stream[i]])
  }

  lemma {:induction false} JoinedSingles(stream: string, k: nat)
    requires k <= |stream|
    ensures Joined(Singles(stream)[..k]) == stream[..k]
  {
    if k > 0 {
      JoinedSingles(stream, k - 1);
      JoinedAt(Singles(stream), k - 1);
      assert stream[..k] == stream[..k - 1] + [stream[k - 1]];
    } else {
      JoinedAt(Singles(stream), 0);
    }
  }

  /** A complete request is returned whole however it is chunked exactly when it has at most 1 MiB. */
  lemma CompleteRequestIsReadIff(stream: string)
    requires Complete(stream)
    ensures (forall chunks :: Received(chunks) && Joined(chunks) == stream ==> |Request(chunks)| >= WholeSize(stream))
            <==> WholeSize(stream) <= 0x10_0000
  {
    hide Target, Joined, Request, WholeSize, IndexOf;
    TargetOfComplete(stream);
    if WholeSize(stream) <= MAX_REQUEST {
      forall chunks | Received(chunks) && Joined(chunks) == stream ensures |Request(chunks)| >= WholeSize(stream) {
        RequestSize(chunks);
      }
    } else {
      SinglesFallShort(stream);
    }
  }

  /** Arriving one character at a time, exactly the target is read. */
  lemma SinglesFallShort(stream: string)
    ensures Joined(Singles(stream)) == stream
    ensures Target(stream) <= |stream| ==> |Request(Singles(stream))| == Target(stream)
  {
    hide Target, Joined, Singles;
    var chunks, target := Singles(stream), Target(stream);
    JoinedSingles(stream, |stream|);
    assert chunks[..|chunks|] == chunks && stream[..|stream|] == stream;
    CountIsFewest(chunks, target);
    var k := Count(chunks, target);
    JoinedSingles(stream, k);
    if target <= |stream| {
      JoinedSingles(stream, target);
      assert k <= target;
    }
  }

  // ---------- The request in the bytes ----------

  datatype HttpRequest = HttpRequest(verb: string, path: string, headers: string, body: string)

  /** The longest prefix without white space. */
  function UntilSpace(s: string): (word: string)
    ensures word <= s
  {
    if s == "" || IsSpace(s[0]) then "" else [s[0]] + UntilSpace(s[1..])
  }

  /** operator>> on a string stream: the next word and the text behind it. */
  function NextWord(s: string): (r: Option<(string, string)>) {
    var word := UntilSpace(DropSpaces(s));
    if word == "" then None else Some((word, DropSpaces(s)[|word|..]))
  }

  /** The first three words of the first line. */
  function RequestLine(line: string): (r: Option<(string, string)>) {
    match NextWord(line)
    case None => None
    case Some((verb, rest)) =>
      match NextWord(rest)
      case None => None
      case Some((path, tail)) => if NextWord(tail).None? then None else Some((verb, path))
  }

  function ParseHttpRequest(raw: string): Option<HttpRequest> {
    match IndexOf(raw, BLANK_LINE)
    case None => None
    case Some(headerEnd) => ParseBlock(raw[..headerEnd], raw[headerEnd + 4..])
  }

  /** The request line and the header lines of a block. */
  function ParseBlock(headers: string, body: string): Option<HttpRequest> {
    match IndexOf(headers, "\r\n")
    case None => None
    case Some(firstLineEnd) =>
      match RequestLine(headers[..firstLineEnd])
      case None => None
      case Some((verb, path)) => Some(HttpRequest(verb, path, headers[firstLineEnd + 2..], body))
  }

  /** Same line and headers; the bodies have the declared length in common. */
  ghost predicate SameRequest(r: Option<HttpRequest>, q: Option<HttpRequest>, contentLength: nat) {
    && r.Some? == q.Some?
    && (r.Some? ==>
      && r.value == q.value.(body := r.value.body)
      && |r.value.body| >= contentLength && |q.value.body| >= contentLength
      && r.value.body[..contentLength] == q.value.body[..contentLength])
  }

  /** A prefix of a stream that holds its whole request is parsed as the stream is, up to what follows the body. */
  lemma WholePrefixIsParsed(stream: string, raw: string)
    requires Complete(stream) && raw <= stream && |raw| >= WholeSize(stream)
    ensures SameRequest(ParseHttpRequest(raw), ParseHttpRequest(stream),
                        ParseContentLength(stream[..IndexOf(stream, BLANK_LINE).value]))
  {
    hide IndexOf, RequestLine, ParseContentLength;
    FoundInPrefix(stream, raw, BLANK_LINE);
    var h := IndexOf(stream, BLANK_LINE).value;
    assert raw[..h] == stream[..h];
    var n := ParseContentLength(stream[..h]);
    assert raw[h + 4..][..n] == stream[h + 4..][..n];
  }

  /**
    However a complete request of at most 1 MiB is split up, the same request is parsed from what was
    read; when nothing follows the request on the connection, exactly the stream was read.
   */
  lemma ChunkingDoesNotMatter(chunks: seq<string>, other: seq<string>)
    requires Received(chunks) && Received(other) && Joined(chunks) == Joined(other)
    requires Complete(Joined(chunks)) && WholeSize(Joined(chunks)) <= MAX_REQUEST
    ensures SameRequest(ParseHttpRequest(Request(chunks)), ParseHttpRequest(Request(other)),
                        ParseContentLength(Joined(chunks)[..IndexOf(Joined(chunks), BLANK_LINE).value]))
    ensures |Joined(chunks)| == WholeSize(Joined(chunks)) ==> Request(chunks) == Request(other) == Joined(chunks)
  {
    hide Joined, Target, Request, IndexOf, ParseHttpRequest, ParseContentLength, WholeSize;
    var stream := Joined(chunks);
    TargetOfComplete(stream);
    RequestSize(chunks);
    RequestSize(other);
    WholePrefixIsParsed(stream, Request(chunks));
    WholePrefixIsParsed(stream, Request(other));
  }
}
