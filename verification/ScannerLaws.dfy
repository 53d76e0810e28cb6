/** How the object scanner behaves over a text cut in pieces. */
module ScannerLaws {
  import opened Domain
  import opened PacketParser

  /** The scanner after reading all of s. */
  ghost function Run(s: string, st: Scanner): Scanner {
    if s == "" then st else Run(s[1..], Step(st, s[0]))
  }

  /** The scan reads all of s without finishing and is then in state after. */
  ghost predicate Passes(s: string, before: Scanner, after: Scanner) {
    ScanEnd(s, before) == None && Run(s, before) == after
  }

  lemma {:induction false} ScanAppend(a: string, b: string, st: Scanner)
    requires ScanEnd(a, st) == None
    ensures ScanEnd(a + b, st) == Shift(ScanEnd(b, Run(a, st)), |a|)
  {
    if a == "" {
      assert a + b == b;
    } else {
      var whole, next := a + b, Step(st, a[0]);
      assert whole[1..] == a[1..] + b;
      ScanAppend(a[1..], b, next);
      assert ScanEnd(whole, st) == Shift(ScanEnd(whole[1..], next), 1);
    }
  }

  lemma {:induction false} RunAppend(a: string, b: string, st: Scanner)
    ensures Run(a + b, st) == Run(b, Run(a, st))
  {
    if a == "" {
      assert a + b == b;
    } else {
      assert (a + b)[1..] == a[1..] + b;
      RunAppend(a[1..], b, Step(st, a[0]));
    }
  }

  lemma {:induction false} ScanFinishedAppend(a: string, b: string, st: Scanner)
    requires ScanEnd(a, st).Some?
    ensures ScanEnd(a + b, st) == ScanEnd(a, st)
  {
    assert (a + b)[1..] == a[1..] + b;
    if Closes(st, a[0]) && st.depth == 1 {
    } else {
      ScanFinishedAppend(a[1..], b, Step(st, a[0]));
    }
  }

  lemma PassesAppend(a: string, b: string, before: Scanner, middle: Scanner, after: Scanner)
    requires Passes(a, before, middle) && Passes(b, middle, after)
    ensures Passes(a + b, before, after)
  {
    ScanAppend(a, b, before);
    RunAppend(a, b, before);
  }

  /** A scan that has not finished is still inside the object it started in. */
  lemma {:induction false} UnfinishedIsInside(s: string, st: Scanner)
    requires st.depth >= 1 && ScanEnd(s, st) == None
    ensures Run(s, st).depth >= 1
  {
    if s == "" {
    } else {
      UnfinishedIsInside(s[1..], Step(st, s[0]));
    }
  }

  /** Text that closes an object does not close one that was opened further out. */
  lemma {:induction false} DeeperScanDoesNotFinish(s: string, st: Scanner, deeper: nat)
    requires st.depth >= 1 && deeper >= 1
    requires ScanEnd(s, st) == Some(|s|)
    ensures ScanEnd(s, st.(depth := st.depth + deeper)) == None
  {
    if Closes(st, s[0]) && st.depth == 1 {
    } else {
      DeeperScanDoesNotFinish(s[1..], Step(st, s[0]), deeper);
    }
  }

  /** Quote-free text leaves the scanner outside strings. */
  lemma {:induction false} QuoteFreeStaysOutside(s: string, st: Scanner)
    requires QuoteFree(s) && !st.inString
    ensures !Run(s, st).inString
  {
    if s == "" {
    } else {
      QuoteFreeStaysOutside(s[1..], Step(st, s[0]));
    }
  }

  /** After any character but a backslash no escape is pending. */
  lemma {:induction false} LastDecidesEscape(s: string, st: Scanner)
    requires s != "" && s[|s| - 1] != '\\'
    ensures !Run(s, st).escape
  {
    if |s| > 1 {
      LastDecidesEscape(s[1..], Step(st, s[0]));
    } else {
      assert Run(s, st) == Step(st, s[0]);
    }
  }
}
