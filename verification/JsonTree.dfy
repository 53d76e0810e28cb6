/** Object trees printed with escaped strings, and what the object scanner makes of them. */
module JsonTree {
  import opened Domain
  import opened PacketParser
  import opened PacketPrinter
  import opened ScannerLaws
  import opened RoundTrip
  import Decimal

  datatype Json =
    | Null
    | Bool(value: bool)
    | Num(n: nat)
    | Str(text: string)
    | Arr(items: Items)
    | Obj(members: Members)

  datatype Items = NoItems | Item(head: Json, tail: Items)
  datatype Members = NoMembers | Member(name: string, value: Json, rest: Members)

  function Print(v: Json): string {
    match v
    case Null => "null"
    case Bool(b) => if b then "true" else "false"
    case Num(n) => Decimal.Print(n)
    case Str(text) => Quoted(Escape(text))
    case Arr(items) => "[" + PrintItems(items) + "]"
    case Obj(members) => "{" + PrintMembers(members) + "}"
  }

  function PrintItems(items: Items): string {
    match items
    case NoItems => ""
    case Item(head, NoItems) => Print(head)
    case Item(head, tail) => Print(head) + "," + PrintItems(tail)
  }

  function PrintMembers(members: Members): string {
    match members
    case NoMembers => ""
    case Member(name, value, NoMembers) => Quoted(Escape(name)) + ":" + Print(value)
    case Member(name, value, rest) => Quoted(Escape(name)) + ":" + Print(value) + "," + PrintMembers(rest)
  }

  /** The scanner reads s and is back where it was: same depth, outside strings, nothing escaped. */
  ghost predicate Neutral(s: string, depth: int) {
    Passes(s, Scanner(depth, false, false), Scanner(depth, false, false))
  }

  lemma NeutralAppend(a: string, b: string, depth: int)
    requires Neutral(a, depth) && Neutral(b, depth)
    ensures Neutral(a + b, depth)
  {
    var st := Scanner(depth, false, false);
    PassesAppend(a, b, st, st, st);
  }

  lemma {:induction false} InertIsNeutral(s: string, depth: int)
    requires forall i :: 0 <= i < |s| ==> s[i] !in "{}\"\\"
    ensures Neutral(s, depth)
  {
    if s == "" {
    } else {
      var c := s[0];
      assert "{}\"\\"[0] == '{' && "{}\"\\"[1] == '}' && "{}\"\\"[2] == '"' && "{}\"\\"[3] == '\\';
      InertIsNeutral(s[1..], depth);
    }
  }

  lemma EscapedCharStaysInString(c: char, depth: int)
    ensures Passes(EscapeChar(c), Scanner(depth, true, false), Scanner(depth, true, false))
  {
    var st, text := Scanner(depth, true, false), EscapeChar(c);
    var next := Step(st, text[0]);
    if |text| == 2 {
      assert text[1..] == [text[1]] && text[1..][1..] == "";
      assert Run(text[1..], next) == Run("", Step(next, text[1]));
    } else {
      assert text[1..] == "" && next == st;
      assert Run(text, st) == Run("", next);
    }
  }

  /** Inside a string, escaped text is passed without leaving the string. */
  lemma {:induction false} EscapedStaysInString(v: string, depth: int)
    ensures Passes(Escape(v), Scanner(depth, true, false), Scanner(depth, true, false))
  {
    if v == "" {
    } else {
      var st := Scanner(depth, true, false);
      EscapedStaysInString(v[1..], depth);
      EscapedCharStaysInString(v[0], depth);
      PassesAppend(EscapeChar(v[0]), Escape(v[1..]), st, st, st);
    }
  }

  lemma QuoteToggles(depth: int, inString: bool)
    ensures Passes("\"", Scanner(depth, inString, false), Scanner(depth, !inString, false))
  {
    assert "\""[1..] == "";
  }

  lemma StringIsNeutral(v: string, depth: int)
    ensures Neutral(Quoted(Escape(v)), depth)
  {
    var outside, inside := Scanner(depth, false, false), Scanner(depth, true, false);
    QuoteToggles(depth, false);
    QuoteToggles(depth, true);
    EscapedStaysInString(v, depth);
    PassesAppend("\"", Escape(v), outside, inside, inside);
    PassesAppend("\"" + Escape(v), "\"", outside, inside, outside);
  }

  lemma BraceSteps(depth: int)
    ensures Passes("{", Scanner(depth, false, false), Scanner(depth + 1, false, false))
    ensures depth != 0 ==> Passes("}", Scanner(depth + 1, false, false), Scanner(depth, false, false))
  {
    assert "{"[1..] == "" && "}"[1..] == "";
  }

  lemma {:induction false} ValueIsNeutral(v: Json, depth: int)
    requires depth >= 1
    ensures Neutral(Print(v), depth)
  {
    match v {
      case Null => InertIsNeutral("null", depth);
      case Bool(b) => InertIsNeutral(Print(v), depth);
      case Num(n) => InertIsNeutral(Print(v), depth);
      case Str(text) => StringIsNeutral(text, depth);
      case Arr(items) =>
        ItemsAreNeutral(items, depth);
        InertIsNeutral("[", depth);
        InertIsNeutral("]", depth);
        NeutralAppend("[", PrintItems(items), depth);
        NeutralAppend("[" + PrintItems(items), "]", depth);
      case Obj(members) =>
        var outer, inner := Scanner(depth, false, false), Scanner(depth + 1, false, false);
        MembersAreNeutral(members, depth + 1);
        BraceSteps(depth);
        PassesAppend("{", PrintMembers(members), outer, inner, inner);
        PassesAppend("{" + PrintMembers(members), "}", outer, inner, outer);
    }
  }

  lemma {:induction false} ItemsAreNeutral(items: Items, depth: int)
    requires depth >= 1
    ensures Neutral(PrintItems(items), depth)
  {
    match items {
      case NoItems =>
      case Item(head, tail) =>
        ValueIsNeutral(head, depth);
        ItemsAreNeutral(tail, depth);
        InertIsNeutral(",", depth);
        NeutralAppend(Print(head), ",", depth);
        NeutralAppend(Print(head) + ",", PrintItems(tail), depth);
    }
  }

  lemma {:induction false} MembersAreNeutral(members: Members, depth: int)
    requires depth >= 1
    ensures Neutral(PrintMembers(members), depth)
  {
    match members {
      case NoMembers =>
      case Member(name, value, rest) =>
        var key := Quoted(Escape(name));
        StringIsNeutral(name, depth);
        ValueIsNeutral(value, depth);
        MembersAreNeutral(rest, depth);
        InertIsNeutral(":", depth);
        InertIsNeutral(",", depth);
        NeutralAppend(key, ":", depth);
        NeutralAppend(key + ":", Print(value), depth);
        NeutralAppend(key + ":" + Print(value), ",", depth);
        NeutralAppend(key + ":" + Print(value) + ",", PrintMembers(rest), depth);
    }
  }

  lemma BracedIsComplete(text: string)
    requires Neutral(text, 1)
    ensures ScanComplete("{" + text + "}")
  {
    hide Step, Run, ScanEnd;
    var inner := Scanner(1, false, false);
    BraceSteps(0);
    PassesAppend("{", text, START, inner, inner);
    ScanAppend("{" + text, "}", START);
    LastBrace();
  }

  lemma LastBrace()
    ensures ScanEnd("}", Scanner(1, false, false)) == Some(1)
  {
  }

  /** A printed object is a complete scan, whatever its members hold. */
  lemma ObjectIsComplete(members: Members)
    ensures ScanComplete(Print(Obj(members)))
  {
    hide PrintMembers, Neutral, ScanComplete;
    MembersAreNeutral(members, 1);
    BracedIsComplete(PrintMembers(members));
  }

  /**
    The scan returns exactly the printed object, whatever text follows it, when the key token
    stands first behind pre.
   */
  lemma ScannerReturnsPrintedObject(pre: string, key: string, members: Members, rest: string)
    requires NoTokenIn(pre, Quoted(key) + (":" + (Print(Obj(members)) + rest)), Quoted(key))
    ensures ExtractObject(pre + (Quoted(key) + (":" + (Print(Obj(members)) + rest))), key) == Some(Print(Obj(members)))
  {
    hide ObjectStart, NoTokenIn, ScanEnd, Quoted, PrintMembers;
    var printed := Print(Obj(members));
    ObjectIsComplete(members);
    assert ":" + (printed + rest) == "" + (":" + ("" + (printed + rest)));
    ObjectStartAt(pre, "", "", printed + rest, key);
    hide Print;
    ScanFinishedAppend(printed, rest, START);
    assert (printed + rest)[..|printed|] == printed;
  }
}
