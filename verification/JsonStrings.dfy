/** Reading escaped text back as section 7 of RFC 8259 defines it. */
module JsonStrings {
  import opened Domain
  import opened PacketPrinter

  /** The character a two-character escape stands for, by the letter behind the backslash. */
  function Escaped(letter: char): Option<char> {
    if letter == '"' then Some('\U{22}')          // quotation mark
    else if letter == '\\' then Some('\U{5C}')    // reverse solidus
    else if letter == '/' then Some('\U{2F}')     // solidus
    else if letter == 'b' then Some('\U{08}')     // backspace
    else if letter == 'f' then Some('\U{0C}')     // form feed
    else if letter == 'n' then Some('\U{0A}')     // line feed
    else if letter == 'r' then Some('\U{0D}')     // carriage return
    else if letter == 't' then Some('\U{09}')     // tab
    else None
  }

  /** The text between the quotes of a string; four-digit escapes are not used and not read here. */
  function Unescape(text: string): Option<string> {
    if text == "" then Some("")
    else if text[0] == '"' then None
    else if text[0] == '\\' then
      if |text| == 1 || Escaped(text[1]).None? then None
      else Prepend(Escaped(text[1]).value, Unescape(text[2..]))
    else Prepend(text[0], Unescape(text[1..]))
  }

  function Prepend(c: char, text: Option<string>): Option<string> {
    if text.None? then None else Some([c] + text.value)
  }

  lemma EscapedCharIsRead(c: char, rest: string)
    ensures Unescape(EscapeChar(c) + rest) == Prepend(c, Unescape(rest))
  {
    var text := EscapeChar(c) + rest;
    if |EscapeChar(c)| == 2 {
      assert text[0] == EscapeChar(c)[0] == '\\' && text[1] == EscapeChar(c)[1] && text[2..] == rest;
    } else {
      assert text[0] == c && text[1..] == rest;
    }
  }

  /** Reading what was escaped gives the text back, whatever it holds. */
  lemma {:induction false} UnescapeOfEscape(v: string)
    ensures Unescape(Escape(v)) == Some(v)
  {
    if v == "" {
    } else {
      hide EscapeChar, Unescape;
      EscapedCharIsRead(v[0], Escape(v[1..]));
      UnescapeOfEscape(v[1..]);
      assert v == [v[0]] + v[1..];
    }
  }

  /** So no two texts are printed alike. */
  lemma EscapeInjective(v: string, w: string)
    requires Escape(v) == Escape(w)
    ensures v == w
  {
    UnescapeOfEscape(v);
    UnescapeOfEscape(w);
  }

  // ---------- Control characters ----------

  /** The standard wants every character below U+0020 escaped. */
  predicate NoControls(text: string) {
    forall i :: 0 <= i < |text| ==> text[i] >= ' '
  }

  /** The control characters that have a letter of their own. */
  predicate Lettered(c: char) {
    c == '\U{08}' || c == '\U{09}' || c == '\U{0A}' || c == '\U{0C}' || c == '\U{0D}'
  }

  /** The printed text is a string of the standard exactly when no other control character occurs: those are copied. */
  lemma {:induction false} EscapeIsStandardIff(v: string)
    ensures NoControls(Escape(v)) <==> forall i :: 0 <= i < |v| ==> v[i] >= ' ' || Lettered(v[i])
  {
    if v == "" {
    } else {
      var head, tail := EscapeChar(v[0]), Escape(v[1..]);
      EscapeIsStandardIff(v[1..]);
      assert NoControls(head) <==> v[0] >= ' ' || Lettered(v[0]) by { CharIsStandardIff(v[0]); }
      hide EscapeChar, Lettered;
      assert NoControls(head + tail) <==> NoControls(head) && NoControls(tail) by { ControlsAppend(head, tail); }
      assert v == [v[0]] + v[1..];
    }
  }

  lemma CharIsStandardIff(c: char)
    ensures NoControls(EscapeChar(c)) <==> c >= ' ' || Lettered(c)
  {
    assert |EscapeChar(c)| == 1 ==> EscapeChar(c)[0] == c;
  }

  lemma ControlsAppend(a: string, b: string)
    ensures NoControls(a + b) <==> NoControls(a) && NoControls(b)
  {
    if NoControls(a + b) {
      assert forall i :: 0 <= i < |a| ==> a[i] == (a + b)[i];
      assert forall i :: 0 <= i < |b| ==> b[i] == (a + b)[|a| + i];
    }
  }
}
