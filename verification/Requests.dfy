/** Requests as clients write them: what is read of them under every chunking, and what they are parsed to. */
module Requests {
  import opened Domain
  import opened PacketParser
  import opened RoundTrip
  import opened FieldForms
  import opened RequestReader
  import Decimal

  // ---------- The declared length ----------

  /** The header name stands somewhere in the text, in any case. */
  ghost predicate Announces(s: string) {
    exists i :: 0 <= i < |s| && "content-length:" <= LowerAll(s)[i..]
  }

  lemma AnyCaseMeans(s: string)
    ensures StartsInAnyCase(s, "Content-Length:") <==> "content-length:" <= LowerAll(s)
  {
    var name := "Content-Length:";
    assert LowerAll(name) == "content-length:" by { LowerOfName(); }
    assert |name| == 15;
    if StartsInAnyCase(s, name) {
      assert LowerAll(s)[..15] == LowerAll(name);
    }
    if LowerAll(name) <= LowerAll(s) {
      forall i | 0 <= i < 15 ensures Lower(s[i]) == Lower(name[i]) {
        assert LowerAll(s)[i] == LowerAll(name)[i];
      }
    }
  }

  lemma LowerOfName()
    ensures LowerAll("Content-Length:") == "content-length:"
  {
  }

  lemma LowerOfSuffix(s: string, i: nat)
    requires i <= |s|
    ensures LowerAll(s[i..]) == LowerAll(s)[i..]
  {
  }

  /** A search for the length passes over a stretch in which the name does not start. */
  lemma {:induction false} LengthSearchSkips(s: string, n: nat)
    requires n <= |s| && forall i :: 0 <= i < n ==> !("content-length:" <= LowerAll(s)[i..])
    ensures ExtractLength(s) == ExtractLength(s[n..])
  {
    hide MatchLength, LowerAll, StartsInAnyCase;
    if n == 0 {
      assert s[0..] == s;
    } else {
      assert LowerAll(s)[0..] == LowerAll(s);
      NoNameNoLength(s);
      forall i | 0 <= i < n - 1 ensures !("content-length:" <= LowerAll(s[1..])[i..]) {
        LowerOfSuffix(s, 1);
        assert LowerAll(s)[1..][i..] == LowerAll(s)[i + 1..];
      }
      LengthSearchSkips(s[1..], n - 1);
      assert s[1..][n - 1..] == s[n..];
    }
  }

  lemma NoNameNoLength(s: string)
    ensures !("content-length:" <= LowerAll(s)) ==> MatchLength(s) == None
  {
    AnyCaseMeans(s);
  }

  /** Headers that never bring the name declare length 0. */
  lemma UnannouncedIsZero(headers: string)
    requires !Announces(headers)
    ensures ParseContentLength(headers) == 0
  {
    LengthSearchSkips(headers, |headers|);
    assert headers[|headers|..] == "";
  }

  /** Text that does not bring the name does not start it either, in front of the name itself. */
  lemma NameStartsHere(before: string, name: string, tail: string, i: nat)
    requires LowerAll(name) == "content-length" && !Announces(before) && i < |before|
    ensures !("content-length:" <= LowerAll(before + (name + tail))[i..])
  {
    hide Lower;
    var token, text := "content-length:", LowerAll(before + (name + tail));
    assert forall j :: 0 <= j < |before| ==> text[j] == LowerAll(before)[j];
    assert forall j :: 0 <= j < 14 ==> text[|before| + j] == LowerAll(name)[j] == token[j];
    if i + 15 <= |before| {
      TokenWithin(LowerAll(before), text, i, token);
    } else {
      assert token[14] == ':' && text[i..][14] == text[i + 14] == token[i + 14 - |before|];
      NoColonInName(i + 14 - |before|);
    }
  }

  lemma NoColonInName(j: nat)
    requires j < 14
    ensures "content-length:"[j] != ':'
  {
  }

  /** The first line with the name, in any case and with any white space, declares its number. */
  lemma LengthIsRead(before: string, name: string, w: string, n: nat, rest: string)
    requires LowerAll(name) == "content-length" && !Announces(before) && White(w)
    requires rest != "" ==> !Decimal.IsDigit(rest[0])
    ensures ParseContentLength(before + (name + (":" + (w + (Decimal.Print(n) + rest))))) ==
            if n < TWO_TO_THE_64 then n else 0
  {
    hide Announces, LowerAll, White, MatchLength, DropSpaces, DigitRun, IsSpace;
    var number := Decimal.Print(n) + rest;
    var tail := ":" + (w + number);
    var text := before + (name + tail);
    forall i | 0 <= i < |before| ensures !("content-length:" <= LowerAll(text)[i..]) {
      NameStartsHere(before, name, tail, i);
    }
    LengthSearchSkips(text, |before|);
    assert text[|before|..] == name + tail;
    LengthMatches(name, w, n, rest);
    Decimal.ValueOfPrint(n);
  }

  lemma LengthMatches(name: string, w: string, n: nat, rest: string)
    requires LowerAll(name) == "content-length" && White(w)
    requires rest != "" ==> !Decimal.IsDigit(rest[0])
    ensures MatchLength(name + (":" + (w + (Decimal.Print(n) + rest)))) == Some(Decimal.Print(n))
  {
    var number := Decimal.Print(n) + rest;
    var s := name + (":" + (w + number));
    assert |name| == 14 by { assert |LowerAll(name)| == 14; }
    NameIsAnyCase(name, w + number);
    assert s[15..] == w + number;
    DigitIsNoSpace(Decimal.Print(n)[0]);
    assert number[0] == Decimal.Print(n)[0];
    hide DropSpaces, DigitRun, StartsInAnyCase, White;
    WhiteIsDropped(w, number);
    DigitRunOfDigits(Decimal.Print(n), rest);
  }

  lemma NameIsAnyCase(name: string, tail: string)
    requires LowerAll(name) == "content-length"
    ensures StartsInAnyCase(name + (":" + tail), "Content-Length:")
  {
    var s := name + (":" + tail);
    assert |name| == |LowerAll(name)| == 14;
    assert LowerAll(s)[..15] == LowerAll(name) + ":" by {
      assert forall i :: 0 <= i < 14 ==> LowerAll(s)[i] == LowerAll(name)[i];
      assert s[14] == ':' && Lower(':') == ':';
    }
    assert "content-length:" <= LowerAll(s);
    AnyCaseMeans(s);
  }

  lemma DigitIsNoSpace(c: char)
    requires Decimal.IsDigit(c)
    ensures !IsSpace(c)
  {
  }

  // ---------- Lines ----------

  /** Something without line ends. */
  predicate GoodLine(line: string) {
    line != "" && '\r' !in line && '\n' !in line
  }

  function JoinLines(lines: seq<string>): string {
    if lines == [] then ""
    else if |lines| == 1 then lines[0]
    else lines[0] + "\r\n" + JoinLines(lines[1..])
  }

  /** No empty line stands in front of the one behind the headers. */
  lemma {:induction false} NoBlankLineInside(lines: seq<string>, rest: string)
    requires lines != [] && forall i :: 0 <= i < |lines| ==> GoodLine(lines[i])
    ensures NoTokenIn(JoinLines(lines), BLANK_LINE + rest, BLANK_LINE)
    ensures JoinLines(lines) != "" && JoinLines(lines)[0] != '\r'
  {
    hide NoTokenIn;
    var first := lines[0];
    if |lines| == 1 {
      NoTokenWithoutFirst(first, BLANK_LINE + rest, BLANK_LINE);
    } else {
      var others := JoinLines(lines[1..]);
      NoBlankLineInside(lines[1..], rest);
      var tail := others + (BLANK_LINE + rest);
      NoBlankAtLineEnd(tail);
      NoTokenAppend("\r\n", others, BLANK_LINE + rest, BLANK_LINE);
      assert ("\r\n" + others) + (BLANK_LINE + rest) == "\r\n" + tail;
      NoTokenWithoutFirst(first, ("\r\n" + others) + (BLANK_LINE + rest), BLANK_LINE);
      NoTokenAppend(first, "\r\n" + others, BLANK_LINE + rest, BLANK_LINE);
      assert JoinLines(lines) == first + ("\r\n" + others);
    }
  }

  lemma NoBlankAtLineEnd(tail: string)
    requires tail != "" && tail[0] != '\r'
    ensures NoTokenIn("\r\n", tail, BLANK_LINE)
  {
    var text := "\r\n" + tail;
    assert text[0..][2] == tail[0] && text[1..][0] == '\n';
  }

  // ---------- The first line ----------

  /** Something without white space. */
  predicate Word(s: string) {
    s != "" && forall i :: 0 <= i < |s| ==> NoWhite(s[i])
  }

  lemma {:induction false} WordIsRead(word: string, rest: string)
    requires (forall i :: 0 <= i < |word| ==> NoWhite(word[i])) && (rest != "" ==> rest[0] == ' ')
    ensures UntilSpace(word + rest) == word
  {
    if word == "" {
      assert word + rest == rest;
    } else {
      WhiteIsSpace(word[0]);
      WordIsRead(word[1..], rest);
      assert (word + rest)[1..] == word[1..] + rest;
    }
  }

  predicate NoWhite(c: char) {
    c != ' ' && !('\U{09}' <= c <= '\U{0D}')
  }

  lemma NextWordIs(w: string, word: string, rest: string)
    requires White(w) && Word(word) && (rest != "" ==> rest[0] == ' ')
    ensures NextWord(w + (word + rest)) == Some((word, rest))
  {
    hide DropSpaces, UntilSpace, White;
    WhiteIsSpace(word[0]);
    hide IsSpace;
    WhiteIsDropped(w, word + rest);
    WordIsRead(word, rest);
    assert (word + rest)[|word|..] == rest;
  }

  /** The words of a request line. */
  function FirstLine(verb: string, path: string, version: string): string {
    verb + (" " + (path + (" " + version)))
  }

  lemma FirstLineIsRead(verb: string, path: string, version: string)
    requires Word(verb) && Word(path) && Word(version)
    ensures RequestLine(FirstLine(verb, path, version)) == Some((verb, path))
  {
    hide NextWord;
    var rest := " " + (path + (" " + version));
    assert White("") && White(" ");
    hide Word, White;
    assert "" + (verb + rest) == FirstLine(verb, path, version);
    NextWordIs("", verb, rest);
    NextWordIs(" ", path, " " + version);
    assert " " + version == " " + (version + "");
    NextWordIs(" ", version, "");
  }

  lemma FirstLineIsGood(verb: string, path: string, version: string)
    requires Word(verb) && Word(path) && Word(version)
    ensures GoodLine(FirstLine(verb, path, version))
  {
    var line := FirstLine(verb, path, version);
    assert '\r' !in " " && '\n' !in " ";
  }

  // ---------- A whole request ----------

  function HeaderBlock(verb: string, path: string, version: string, headers: string): string {
    FirstLine(verb, path, version) + ("\r\n" + headers)
  }

  function RequestText(verb: string, path: string, version: string, headers: string, body: string): string {
    HeaderBlock(verb, path, version, headers) + (BLANK_LINE + body)
  }

  /** A request whose headers bring no empty line is parsed to its method, its path, its headers and its body. */
  lemma WrittenRequestIsParsed(verb: string, path: string, version: string, headers: string, body: string)
    requires Word(verb) && Word(path) && Word(version)
    requires NoTokenIn(HeaderBlock(verb, path, version, headers), BLANK_LINE + body, BLANK_LINE)
    ensures ParseHttpRequest(RequestText(verb, path, version, headers, body)) == Some(HttpRequest(verb, path, headers, body))
    ensures IndexOf(RequestText(verb, path, version, headers, body), BLANK_LINE)
            == Some(|HeaderBlock(verb, path, version, headers)|)
  {
    hide IndexOf, NoTokenIn, ParseBlock, HeaderBlock, Word;
    var block, text := HeaderBlock(verb, path, version, headers), RequestText(verb, path, version, headers, body);
    BlockIsParsed(verb, path, version, headers, body);
    FoundBehind(block, BLANK_LINE, body);
    assert text[..|block|] == block && text[|block| + 4..] == body;
  }

  lemma BlockIsParsed(verb: string, path: string, version: string, headers: string, body: string)
    requires Word(verb) && Word(path) && Word(version)
    ensures ParseBlock(HeaderBlock(verb, path, version, headers), body) == Some(HttpRequest(verb, path, headers, body))
  {
    hide IndexOf, NoTokenIn, RequestLine, FirstLine, Word;
    var line, block := FirstLine(verb, path, version), HeaderBlock(verb, path, version, headers);
    FirstLineIsGood(verb, path, version);
    FirstLineIsRead(verb, path, version);
    NoTokenWithoutFirst(line, "\r\n" + headers, "\r\n");
    FoundBehind(line, "\r\n", headers);
    assert block[..|line|] == line && block[|line| + 2..] == headers;
  }

  /** Without a header line the gateway takes the request for none. */
  lemma RequestWithoutHeadersIsRefused(verb: string, path: string, version: string, body: string)
    requires Word(verb) && Word(path) && Word(version)
    ensures ParseHttpRequest(FirstLine(verb, path, version) + (BLANK_LINE + body)) == None
  {
    var line := FirstLine(verb, path, version);
    FirstLineIsGood(verb, path, version);
    hide IndexOf, NoTokenIn, RequestLine, FirstLine, Word;
    NoTokenWithoutFirst(line, BLANK_LINE + body, BLANK_LINE);
    FoundBehind(line, BLANK_LINE, body);
    assert (line + (BLANK_LINE + body))[..|line|] == line;
    NotFound(line);
  }

  lemma {:induction false} NotFound(line: string)
    requires '\r' !in line
    ensures IndexOf(line, "\r\n") == None
  {
    if line == "" {
    } else {
      assert line[0] in line && !("\r\n" <= line);
      NotFound(line[1..]);
    }
  }

  /** Headers written as lines bring no empty line. */
  lemma LinesBringNoBlank(verb: string, path: string, version: string, lines: seq<string>, body: string)
    requires Word(verb) && Word(path) && Word(version)
    requires lines != [] && forall i :: 0 <= i < |lines| ==> GoodLine(lines[i])
    ensures NoTokenIn(HeaderBlock(verb, path, version, JoinLines(lines)), BLANK_LINE + body, BLANK_LINE)
  {
    hide NoTokenIn, Word, GoodLine, FirstLine;
    var line := FirstLine(verb, path, version);
    FirstLineIsGood(verb, path, version);
    var all := [line] + lines;
    assert all[1..] == lines;
    NoBlankLineInside(all, body);
    assert JoinLines(all) == HeaderBlock(verb, path, version, JoinLines(lines));
  }

  // ---------- ... under every chunking ----------

  /** A written request that declares its body and has at most 1 MiB is read whole and parsed under every chunking. */
  lemma DeclaredRequestIsRead(
    chunks: seq<string>, verb: string, path: string, version: string, headers: string, body: string)
    requires Word(verb) && Word(path) && Word(version)
    requires NoTokenIn(HeaderBlock(verb, path, version, headers), BLANK_LINE + body, BLANK_LINE)
    requires ParseContentLength(HeaderBlock(verb, path, version, headers)) == |body|
    requires |RequestText(verb, path, version, headers, body)| <= 0x10_0000
    requires Received(chunks) && Joined(chunks) == RequestText(verb, path, version, headers, body)
    ensures Request(chunks) == RequestText(verb, path, version, headers, body)
    ensures ParseHttpRequest(Request(chunks)) == Some(HttpRequest(verb, path, headers, body))
  {
    hide NoTokenIn, Word, HeaderBlock, ParseHttpRequest, ParseContentLength, Joined, Request, IndexOf;
    var stream, block := RequestText(verb, path, version, headers, body), HeaderBlock(verb, path, version, headers);
    WrittenRequestIsParsed(verb, path, version, headers, body);
    assert stream[..|block|] == block;
    ChunkingDoesNotMatter(chunks, chunks);
  }

  /** ... its length given by a header line: the name in any case, white space, and the length of the body. */
  lemma RequestWithBodyIsRead(
    chunks: seq<string>, verb: string, path: string, version: string,
    before: string, name: string, w: string, behind: string, body: string)
    requires Word(verb) && Word(path) && Word(version) && LowerAll(name) == "content-length" && White(w)
    requires behind != "" ==> behind[0] == '\r'
    requires
      var headers := before + (name + (":" + (w + (Decimal.Print(|body|) + behind))));
      && !Announces(HeaderBlock(verb, path, version, before))
      && NoTokenIn(HeaderBlock(verb, path, version, headers), BLANK_LINE + body, BLANK_LINE)
      && |RequestText(verb, path, version, headers, body)| <= 0x10_0000
      && Received(chunks) && Joined(chunks) == RequestText(verb, path, version, headers, body)
    ensures
      var headers := before + (name + (":" + (w + (Decimal.Print(|body|) + behind))));
      && Request(chunks) == RequestText(verb, path, version, headers, body)
      && ParseHttpRequest(Request(chunks)) == Some(HttpRequest(verb, path, headers, body))
  {
    hide NoTokenIn, Word, ParseHttpRequest, ParseContentLength, Joined, Request, Announces, LowerAll, White, FirstLine;
    var tail := name + (":" + (w + (Decimal.Print(|body|) + behind)));
    var headers := before + tail;
    LengthIsRead(HeaderBlock(verb, path, version, before), name, w, |body|, behind);
    assert HeaderBlock(verb, path, version, headers) == HeaderBlock(verb, path, version, before) + tail;
    DeclaredRequestIsRead(chunks, verb, path, version, headers, body);
  }

  /** ... or no length and no body. */
  lemma RequestWithoutBodyIsRead(chunks: seq<string>, verb: string, path: string, version: string, headers: string)
    requires Word(verb) && Word(path) && Word(version)
    requires !Announces(HeaderBlock(verb, path, version, headers))
    requires NoTokenIn(HeaderBlock(verb, path, version, headers), BLANK_LINE + "", BLANK_LINE)
    requires |RequestText(verb, path, version, headers, "")| <= 0x10_0000
    requires Received(chunks) && Joined(chunks) == RequestText(verb, path, version, headers, "")
    ensures Request(chunks) == RequestText(verb, path, version, headers, "")
    ensures ParseHttpRequest(Request(chunks)) == Some(HttpRequest(verb, path, headers, ""))
  {
    hide NoTokenIn, Word, ParseHttpRequest, ParseContentLength, Joined, Request, Announces, HeaderBlock;
    UnannouncedIsZero(HeaderBlock(verb, path, version, headers));
    DeclaredRequestIsRead(chunks, verb, path, version, headers, "");
  }
}
