/** What a payload is read as, by how its fields are written: in any layout, with any white space around the colons. */
module FieldForms {
  import opened Domain
  import opened PacketParser
  import opened SearchLaws
  import opened ScannerLaws
  import opened RoundTrip
  import Decimal

  // ---------- One field ----------

  /** Spaces, tabs, line feeds, vertical tabs, form feeds and carriage returns. */
  predicate White(w: string) {
    forall i :: 0 <= i < |w| ==> w[i] == ' ' || '\U{09}' <= w[i] <= '\U{0D}'
  }

  lemma WhiteIsDropped(w: string, s: string)
    requires White(w) && (s != "" ==> !IsSpace(s[0]))
    ensures DropSpaces(w + s) == s
  {
    var text := w + s;
    assert forall i :: 0 <= i < |w| ==> text[i] == w[i];
    assert s != "" ==> text[|w|] == s[0];
    SpacesAreDropped(text, |w|);
    assert text[|w|..] == s;
  }

  lemma {:induction false} SpacesAreDropped(s: string, n: nat)
    requires n <= |s| && (forall i :: 0 <= i < n ==> IsSpace(s[i])) && (n < |s| ==> !IsSpace(s[n]))
    ensures DropSpaces(s) == s[n..]
  {
    if n == 0 {
      assert s[0..] == s;
    } else {
      SpacesAreDropped(s[1..], n - 1);
      assert s[1..][n - 1..] == s[n..];
    }
  }

  lemma WhiteIsSpace(c: char)
    ensures IsSpace(c) <==> c == ' ' || '\U{09}' <= c <= '\U{0D}'
  {
  }

  /** A key with its colon, as a client may write it. */
  function Keyed(key: string, w1: string, w2: string, value: string): string {
    Quoted(key) + (w1 + (":" + (w2 + value)))
  }

  lemma KeyedIsMatched(key: string, w1: string, w2: string, value: string)
    requires White(w1) && White(w2) && value != "" && !IsSpace(value[0])
    ensures MatchKey(Keyed(key, w1, w2, value), key) == Some(value)
  {
    hide Quoted, DropSpaces, White;
    var behind := ":" + (w2 + value);
    DropHead(Quoted(key), w1 + behind);
    WhiteIsDropped(w1, behind);
    DropHead(":", w2 + value);
    WhiteIsDropped(w2, value);
  }

  /** Text that does not mention a key holds no match of it, not even across its end, in front of the key itself. */
  lemma NoKeyBefore(before: string, tail: string, key: string)
    requires Plain(key) && !Mentions(before, key)
    ensures NoKeyIn(before, Quoted(key) + tail, key)
  {
    hide Mentions, Plain;
    var text := before + (Quoted(key) + tail);
    forall i | 0 <= i < |before| ensures !KeyAt(text, i, key) {
      NoKeyAcross(before, tail, key, i);
    }
    NoKeyAtAnywhere(before, Quoted(key) + tail, key);
  }

  lemma NoKeyAcross(before: string, tail: string, key: string, i: nat)
    requires Plain(key) && !Mentions(before, key) && i < |before|
    ensures !KeyAt(before + (Quoted(key) + tail), i, key)
  {
    hide Mentions;
    var text, b := before + (Quoted(key) + tail), |before|;
    assert text[b] == '"' && text[b + 1] == key[0];
    WholeKeyIsMentioned(before, text, i, key);
  }

  lemma WholeKeyIsMentioned(before: string, text: string, i: nat, key: string)
    requires before <= text
    ensures KeyAt(text, i, key) && i + |key| + 1 < |before| ==> Mentions(before, key)
  {
    if KeyAt(text, i, key) && i + |key| + 1 < |before| {
      assert before[i..][..|key| + 2] == Quoted(key);
    }
  }

  /** Behind text that does not mention it, a text field is read as its text. */
  lemma StringIsRead(before: string, key: string, w1: string, w2: string, v: string, rest: string)
    requires Plain(key) && !Mentions(before, key) && White(w1) && White(w2) && QuoteFree(v)
    ensures ExtractString(before + Keyed(key, w1, w2, Quoted(v) + rest), key) == Some(v)
  {
    hide ExtractDigits, MatchKey, NoKeyIn, Mentions, Plain, White, UntilQuote;
    var value := Quoted(v) + rest;
    NoKeyBefore(before, w1 + (":" + (w2 + value)), key);
    SearchSkips(before, Keyed(key, w1, w2, value), key);
    KeyedIsMatched(key, w1, w2, value);
    hide Keyed;
    assert value[1..] == v + "\"" + rest;
    UntilQuoteStops(v, rest);
    UntilQuoteOfQuoteFree(v);
    assert MatchString(Keyed(key, w1, w2, value), key) == Some(v);
  }

  /** A number field is read as its number, or as nothing when it does not fit 64 bits. */
  lemma NumberIsReadAs(before: string, key: string, w1: string, w2: string, n: nat, rest: string)
    requires Plain(key) && !Mentions(before, key) && White(w1) && White(w2)
    requires rest != "" ==> !Decimal.IsDigit(rest[0])
    ensures ExtractUnsigned(before + Keyed(key, w1, w2, Decimal.Print(n) + rest), key) ==
            if n < TWO_TO_THE_64 then Some(n) else None
  {
    hide ExtractString, MatchKey, NoKeyIn, Mentions, Plain, White, DigitRun;
    var value := Decimal.Print(n) + rest;
    NoKeyBefore(before, w1 + (":" + (w2 + value)), key);
    SearchSkips(before, Keyed(key, w1, w2, value), key);
    KeyedIsMatched(key, w1, w2, value);
    hide Keyed;
    DigitRunOfDigits(Decimal.Print(n), rest);
    assert MatchDigits(Keyed(key, w1, w2, value), key) == Some(Decimal.Print(n));
    Decimal.ValueOfPrint(n);
  }

  /** A key that is not mentioned is read as nothing. */
  lemma {:induction false} UnmentionedIsNotRead(s: string, key: string)
    requires !Mentions(s, key)
    ensures ExtractString(s, key) == None && ExtractDigits(s, key) == None && IndexOf(s, Quoted(key)) == None
  {
    hide Quoted, BehindColon;
    assert s != "" ==> s[0..] == s;
    assert |Quoted(key)| > 0 by { QuotedIsLong(key); }
    if s == "" {
    } else {
      forall i | 0 <= i < |s| - 1 ensures !(Quoted(key) <= s[1..][i..]) {
        assert s[1..][i..] == s[i + 1..];
      }
      UnmentionedIsNotRead(s[1..], key);
    }
  }

  lemma QuotedIsLong(key: string)
    ensures |Quoted(key)| == |key| + 2
  {
  }

  // ---------- The object field ----------

  /** An object field is read as the object, whatever stands behind it. */
  lemma ObjectIsRead(before: string, key: string, w1: string, w2: string, obj: string, rest: string)
    requires Plain(key) && !Mentions(before, key) && White(w1) && White(w2) && ScanComplete(obj)
    ensures ExtractObject(before + Keyed(key, w1, w2, obj + rest), key) == Some(obj)
  {
    hide ObjectStart, Mentions, Plain, White, Keyed, ScanEnd;
    ObjectStartIs(before, key, w1, w2, obj + rest);
    ScanFinishedAppend(obj, rest, START);
    assert (obj + rest)[..|obj|] == obj;
  }

  /** A token that ends in the quote of the key leads the three finds to the same brace as the key itself. */
  lemma ObjectStartIs(before: string, key: string, w1: string, w2: string, obj: string)
    requires Plain(key) && !Mentions(before, key) && White(w1) && White(w2) && obj != "" && obj[0] == '{'
    ensures ObjectStart(before + Keyed(key, w1, w2, obj), key) == Some(obj)
  {
    hide ObjectStart, Mentions, Plain, White, NoTokenIn;
    var i := TokenAcross(before, key, w1 + (":" + (w2 + obj)));
    WhiteHasNo(w1);
    WhiteHasNo(w2);
    if i == |before| {
      ObjectStartAt(before, w1, w2, obj, key);
    } else {
      var gap := (key + "\"") + w1;
      NoColonInKey(key);
      assert ':' !in gap;
      var behind := ":" + (w2 + obj);
      assert (key + "\"") + (w1 + behind) == gap + behind;
      assert before + Keyed(key, w1, w2, obj) == before[..i] + (Quoted(key) + (gap + (":" + (w2 + obj))));
      ObjectStartAt(before[..i], gap, w2, obj, key);
    }
  }

  lemma WhiteHasNo(w: string)
    requires White(w)
    ensures ':' !in w && '{' !in w
  {
    assert forall i :: 0 <= i < |w| ==> w[i] in [' ', '\t', '\n', '\U{0B}', '\U{0C}', '\r'];
  }

  lemma NoColonInKey(key: string)
    requires Plain(key)
    ensures ':' !in key + "\""
  {
  }

  /** The first token stands at the key or one token's length less a quote before it. */
  lemma TokenAcross(before: string, key: string, tail: string) returns (i: nat)
    requires Plain(key) && !Mentions(before, key)
    ensures i <= |before|
    ensures i == |before| ==> NoTokenIn(before, Quoted(key) + tail, Quoted(key))
    ensures i < |before| ==>
              && before + (Quoted(key) + tail) == before[..i] + (Quoted(key) + ((key + "\"") + tail))
              && NoTokenIn(before[..i], Quoted(key) + ((key + "\"") + tail), Quoted(key))
  {
    var token, text, n := Quoted(key), before + (Quoted(key) + tail), |key|;
    i := |before|;
    if |before| >= n + 1 && before[|before| - n - 1..] == "\"" + key {
      i := |before| - n - 1;
      assert before == before[..i] + ("\"" + key);
      assert text == before[..i] + (token + ((key + "\"") + tail));
    }
    forall k | 0 <= k < i ensures !(token <= text[k..]) {
      TokenOnlyAcross(before, key, tail, k);
    }
  }

  lemma TokenWithin(before: string, text: string, k: nat, token: string)
    requires before <= text && k + |token| <= |before|
    ensures token <= text[k..] <==> token <= before[k..]
  {
    assert text[k..][..|token|] == before[k..][..|token|];
  }

  lemma TokenOnlyAcross(before: string, key: string, tail: string, k: nat)
    requires Plain(key) && !Mentions(before, key) && k < |before|
    ensures Quoted(key) <= (before + (Quoted(key) + tail))[k..] ==>
              k + |key| + 1 == |before| && before[k..] == "\"" + key
  {
    var token, text, b := Quoted(key), before + (Quoted(key) + tail), |before|;
    var n := |key| + 1;
    if k + n < b {
      TokenWithin(before, text, k, token);
    } else if k + n == b {
      assert before[k..] == text[k..][..n] && token[..n] == "\"" + key;
      assert token <= text[k..] ==> token[..n] == text[k..][..n];
    } else {
      assert text[k..][b - k] == text[b] == '"' && token[b - k] == key[b - k - 1];
    }
  }
}
