/** Decimal text as std::to_string and operator<< print it and std::stoull reads it back. */
module Decimal {
  import opened Domain

  predicate IsDigit(c: char) {
    '0' <= c <= '9'
  }

  ghost predicate AllDigits(s: string) {
    forall i :: 0 <= i < |s| ==> IsDigit(s[i])
  }

  function Print(n: nat): (s: string)
    ensures s != "" && AllDigits(s)
  {
    var last := ['0' + (n % 10) as char];
    if n < 10 then last else Print(n / 10) + last
  }

  /** The number a digit string denotes, with no upper bound. */
  function Value(s: string): (n: nat)
    requires AllDigits(s)
  {
    if s == "" then 0
    else 10 * Value(s[..|s| - 1]) + (s[|s| - 1] - '0') as int
  }

  /** std::stoull on a string of digits: an exception when the value does not fit 64 bits. */
  function ToU64(digits: string): (r: Option<u64>)
    requires AllDigits(digits)
  {
    var n := Value(digits);
    if n < TWO_TO_THE_64 then Some(n) else None
  }

  lemma {:induction false} ValueOfPrint(n: nat)
    ensures Value(Print(n)) == n
  {
    var s := Print(n);
    if n < 10 {
      assert s[..0] == "";
    } else {
      assert s[..|s| - 1] == Print(n / 10);
      ValueOfPrint(n / 10);
    }
  }

  lemma PrintHoldsDigits(n: nat)
    ensures forall c :: c in Print(n) ==> IsDigit(c)
  {
    assert forall i :: 0 <= i < |Print(n)| ==> IsDigit(Print(n)[i]);
  }

  /** Printing loses nothing, so two numbers with the same text are equal. */
  lemma PrintInjective(m: nat, n: nat)
    requires Print(m) == Print(n)
    ensures m == n
  {
    ValueOfPrint(m);
    ValueOfPrint(n);
  }

  /** Base ten: a digit behind a number is ten times the number and the digit. */
  lemma PrintNext(n: nat, d: nat)
    requires n > 0 && d < 10
    ensures Print(10 * n + d) == Print(n) + ["0123456789"[d]] && Print(d) == ["0123456789"[d]]
  {
    assert (10 * n + d) / 10 == n && (10 * n + d) % 10 == d;
    assert "0123456789"[d] == '0' + d as char;
  }
}
