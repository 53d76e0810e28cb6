/** Which parts of a printed text the leftmost search for a quoted key passes over. */
module SearchLaws {
  import opened Domain
  import opened PacketParser
  import opened PacketPrinter
  import Decimal

  /** The keys and member names in use are runs of letters. */
  ghost predicate Plain(key: string) {
    key != "" && forall i :: 0 <= i < |key| ==> 'a' <= key[i] <= 'z' || 'A' <= key[i] <= 'Z'
  }

  /** After a printed value comes a comma or a closing brace. */
  ghost predicate Follows(rest: string) {
    rest != "" && (rest[0] == ',' || rest[0] == '}')
  }

  /** In head + rest no match of the key and its colon starts inside head. */
  ghost predicate NoKeyIn(head: string, rest: string, key: string) {
    forall i :: 0 <= i < |head| ==> MatchKey((head + rest)[i..], key) == None
  }

  lemma {:induction false} SearchSkips(head: string, rest: string, key: string)
    requires NoKeyIn(head, rest, key)
    ensures ExtractString(head + rest, key) == ExtractString(rest, key)
    ensures ExtractDigits(head + rest, key) == ExtractDigits(rest, key)
  {
    hide NoKeyIn, ExtractString, ExtractDigits;
    if head == "" {
      assert head + rest == rest;
    } else {
      NoKeyInTail(head, rest, key);
      SearchSkips(head[1..], rest, key);
    }
  }

  lemma NoKeyInTail(head: string, rest: string, key: string)
    requires NoKeyIn(head, rest, key) && head != ""
    ensures NoKeyIn(head[1..], rest, key)
    ensures ExtractString(head + rest, key) == ExtractString(head[1..] + rest, key)
    ensures ExtractDigits(head + rest, key) == ExtractDigits(head[1..] + rest, key)
  {
    hide MatchKey;
    var whole := head + rest;
    assert whole[0..] == whole && whole[1..] == head[1..] + rest;
    forall i | 0 <= i < |head| - 1 ensures MatchKey((head[1..] + rest)[i..], key) == None {
      assert (head[1..] + rest)[i..] == whole[i + 1..];
    }
    assert MatchString(whole, key).None? && MatchDigits(whole, key).None?;
  }

  lemma NoKeyAppend(a: string, b: string, rest: string, key: string)
    requires NoKeyIn(a, b + rest, key) && NoKeyIn(b, rest, key)
    ensures NoKeyIn(a + b, rest, key)
  {
    var whole := (a + b) + rest;
    assert whole == a + (b + rest);
    forall i | 0 <= i < |a + b| ensures MatchKey(whole[i..], key) == None {
      if i >= |a| {
        assert whole[i..] == (b + rest)[i - |a|..];
      }
    }
  }

  /** At i stand a quote, the key, another quote, and then a colon or a space. */
  ghost predicate KeyAt(text: string, i: nat, key: string) {
    && i + |key| + 2 < |text|
    && text[i] == '"' && text[i + |key| + 1] == '"'
    && (forall j :: i < j <= i + |key| ==> text[j] == key[j - i - 1])
    && (text[i + |key| + 2] == ':' || IsSpace(text[i + |key| + 2]))
  }

  /** What follows the token in a match. */
  lemma MatchTail(s: string, key: string)
    requires MatchKey(s, key).Some?
    ensures |key| + 2 < |s| && Quoted(key) <= s
    ensures s[|key| + 2] == ':' || IsSpace(s[|key| + 2])
  {
    hide IsSpace;
    var tail := s[|Quoted(key)|..];
    assert tail != "" && tail[0] == s[|key| + 2];
  }

  lemma MatchShape(text: string, i: nat, key: string)
    requires i <= |text| && MatchKey(text[i..], key).Some?
    ensures KeyAt(text, i, key)
  {
    hide MatchKey, IsSpace;
    var s, token := text[i..], Quoted(key);
    MatchTail(s, key);
    assert forall j :: 0 <= j < |token| ==> token[j] == s[j] == text[i + j];
    assert s[|token|] == text[i + |token|];
    assert token[0] == '"' && token[|key| + 1] == '"';
    assert forall j :: i < j <= i + |key| ==> text[j] == token[j - i] == key[j - i - 1];
  }

  lemma NoKeyAtAnywhere(head: string, rest: string, key: string)
    requires forall i :: 0 <= i < |head| ==> !KeyAt(head + rest, i, key)
    ensures NoKeyIn(head, rest, key)
  {
    forall i | 0 <= i < |head| ensures MatchKey((head + rest)[i..], key) == None {
      if MatchKey((head + rest)[i..], key).Some? {
        MatchShape(head + rest, i, key);
      }
    }
  }

  lemma NoKeyInQuoteFree(head: string, rest: string, key: string)
    requires QuoteFree(head)
    ensures NoKeyIn(head, rest, key)
  {
    assert forall i :: 0 <= i < |head| ==> (head + rest)[i] == head[i];
    NoKeyAtAnywhere(head, rest, key);
  }

  lemma NoKeyInOtherName(name: string, rest: string, key: string)
    requires Plain(name) && Plain(key) && name != key
    requires rest != "" && rest[0] == ':'
    ensures NoKeyIn(Quoted(name), rest, key)
  {
    var text, end := Quoted(name) + rest, |name| + 1;
    assert text[0] == '"' && text[end] == '"' && text[end + 1] == ':';
    assert forall j :: 0 < j < end ==> text[j] == name[j - 1];
    forall i | 0 <= i <= end ensures !KeyAt(text, i, key) {
      assert i == end ==> text[i + 1] != key[0];
      if i == 0 && |key| == |name| {
        var j :| 0 <= j < |key| && key[j] != name[j];
        assert text[j + 1] != key[j];
      }
    }
    NoKeyAtAnywhere(Quoted(name), rest, key);
  }

  /** Escaping leaves no quote without a backslash before it. */
  lemma {:induction false} EscapedQuotes(v: string)
    ensures forall i :: 0 <= i < |Escape(v)| && Escape(v)[i] == '"' ==> i > 0 && Escape(v)[i - 1] == '\\'
  {
    if v == "" {
    } else {
      EscapedQuotes(v[1..]);
      var head, tail := EscapeChar(v[0]), Escape(v[1..]);
      forall i | 0 <= i < |head + tail| && (head + tail)[i] == '"'
        ensures i > 0 && (head + tail)[i - 1] == '\\'
      {
        if i >= |head| { assert tail[i - |head|] == '"'; }
      }
    }
  }

  /** A printed text value is passed over whatever it says, even when it spells the key. */
  lemma NoKeyInValue(v: string, rest: string, key: string)
    requires Plain(key) && Follows(rest)
    ensures NoKeyIn(Quoted(Escape(v)), rest, key)
  {
    EscapedQuotes(v);
    var esc := Escape(v);
    var text, end := Quoted(esc) + rest, |esc| + 1;
    assert text[end] == '"' && text[end + 1] == rest[0];
    assert forall j :: 0 < j < end ==> text[j] == esc[j - 1];
    forall i | 0 <= i <= end ensures !KeyAt(text, i, key) {
      var close := i + |key| + 1;
      if i < close < end && text[close] == '"' {
        assert esc[close - 1] == '"';
        assert text[close - 1] == '\\' != key[|key| - 1];
      } else if i < end < close {
        assert text[end] != key[end - i - 1];
      } else if i == end {
        assert text[i + 1] != key[0];
      }
    }
    NoKeyAtAnywhere(Quoted(esc), rest, key);
  }

  /** A text that, printed as a raw value, holds no match of the key and its colon. */
  ghost predicate KeyFree(text: string, key: string) {
    forall rest | Follows(rest) :: NoKeyIn(text, rest, key)
  }

  ghost predicate Avoids(f: Field, key: string) {
    Plain(f.name) && f.name != key && (f.Raw? ==> KeyFree(f.text, key))
  }

  lemma DigitsAreQuoteFree(n: nat)
    ensures QuoteFree(Decimal.Print(n))
  {
  }

  lemma NoKeyInMember(f: Field, rest: string, key: string)
    requires Plain(key) && Avoids(f, key) && Follows(rest)
    ensures NoKeyIn(MemberText(f), rest, key)
  {
    var value := ValueText(f);
    match f {
      case Text(_, v) => NoKeyInValue(v, rest, key);
      case Number(_, n) => DigitsAreQuoteFree(n); NoKeyInQuoteFree(value, rest, key);
      case Raw(_, text) =>
    }
    NoKeyInQuoteFree(":", value + rest, key);
    NoKeyAppend(":", value, rest, key);
    assert (":" + value) + rest == ":" + (value + rest);
    NoKeyInOtherName(f.name, (":" + value) + rest, key);
    NoKeyAppend(Quoted(f.name), ":" + value, rest, key);
    assert MemberText(f) == Quoted(f.name) + (":" + value);
  }

  lemma {:induction false} NoKeyInFields(fs: seq<Field>, rest: string, key: string)
    requires Plain(key) && Follows(rest)
    requires forall i :: 0 <= i < |fs| ==> Avoids(fs[i], key)
    ensures NoKeyIn(FieldsText(fs), rest, key)
  {
    hide NoKeyIn, MemberText, Plain, Follows;
    if |fs| == 0 {
      NoKeyInQuoteFree("", rest, key);
    } else if |fs| == 1 {
      NoKeyInMember(fs[0], rest, key);
    } else {
      var head, tail := MemberText(fs[0]), FieldsText(fs[1..]);
      NoKeyInFields(fs[1..], rest, key);
      NoKeyInQuoteFree(",", tail + rest, key);
      NoKeyAppend(",", tail, rest, key);
      assert ("," + tail) + rest == "," + (tail + rest);
      NoKeyInMember(fs[0], ("," + tail) + rest, key);
      NoKeyAppend(head, "," + tail, rest, key);
      assert FieldsText(fs) == head + ("," + tail);
    }
  }

  /** A printed receipt hides no key but its own three. */
  lemma ReceiptKeyFree(receipt: Option<BlockchainReceipt>, key: string)
    requires Plain(key) && key !in ["txHash", "blockHeight", "submittedAt"]
    ensures KeyFree(ReceiptText(receipt), key)
  {
    hide NoKeyIn, FieldsText, Plain;
    var text := ReceiptText(receipt);
    if receipt.Some? { ReceiptAvoids(receipt.value, key); }
    forall rest | Follows(rest) ensures NoKeyIn(text, rest, key) {
      if receipt.None? {
        NoKeyInQuoteFree(text, rest, key);
      } else {
        var fs := ReceiptFields(receipt.value);
        hide ReceiptFields;
        var inner := FieldsText(fs);
        NoKeyInQuoteFree("}", rest, key);
        NoKeyInFields(fs, "}" + rest, key);
        NoKeyAppend(inner, "}", rest, key);
        assert (inner + "}") + rest == inner + ("}" + rest);
        NoKeyInQuoteFree("{", (inner + "}") + rest, key);
        NoKeyAppend("{", inner + "}", rest, key);
        assert text == "{" + (inner + "}");
      }
    }
  }

  lemma ReceiptAvoids(receipt: BlockchainReceipt, key: string)
    requires key !in ["txHash", "blockHeight", "submittedAt"]
    ensures forall i :: 0 <= i < 3 ==> Avoids(ReceiptFields(receipt)[i], key)
  {
    var names := ["txHash", "blockHeight", "submittedAt"];
    var fs := ReceiptFields(receipt);
    assert names[0] == fs[0].name && names[1] == fs[1].name && names[2] == fs[2].name;
  }
}
