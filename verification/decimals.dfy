/** Decimal printing and strconv.Atoi on a 64-bit platform. */
module Decimals {
  import opened Options
  import opened Strings

  const MAX_INT := 0x7fff_ffff_ffff_ffff

  predicate IsDigit(c: char) {
    '0' <= c <= '9'
  }

  predicate AllDigits(s: string) {
    forall i :: 0 <= i < |s| ==> IsDigit(s[i])
  }

  function Print(n: nat): (s: string)
    ensures s != "" && AllDigits(s)
  {
    if n < 10 then [(n + 48) as char] else Print(n / 10) + [(n % 10 + 48) as char]
  }

  function Digits(s: string): nat
    requires AllDigits(s)
  {
    if s == "" then 0
    else
      assert IsDigit(s[|s| - 1]);
      Digits(s[..|s| - 1]) * 10 + (s[|s| - 1] as int - 48)
  }

  /** An optional sign, then at least one digit, then nothing; None also when the value does not fit. */
  function Atoi(s: string): Option<int> {
    var signed := s != "" && (s[0] == '-' || s[0] == '+');
    var digits := if signed then s[1..] else s;
    if digits == "" || !AllDigits(digits) then None
    else
      var n: int := Digits(digits);
      if signed && s[0] == '-' then (if n <= MAX_INT + 1 then Some(-n) else None)
      else if n <= MAX_INT then Some(n) else None
  }

  lemma {:induction false} DigitsOfPrint(n: nat)
    ensures Digits(Print(n)) == n
  {
    if n >= 10 {
      DigitsOfPrint(n / 10);
      assert Print(n)[..|Print(n)| - 1] == Print(n / 10);
    } else {
      assert Digits(Print(n)[..0]) == 0;
    }
  }

  lemma AtoiOfPrint(n: nat)
    ensures Atoi(Print(n)) == if n <= MAX_INT then Some(n) else None
  {
    DigitsOfPrint(n);
    assert IsDigit(Print(n)[0]);
  }

  /** What is read: digits, with a sign or without, that denote a number of 64 bits. */
  lemma AtoiReads(d: string)
    requires d != "" && AllDigits(d)
    ensures Atoi(d) == Atoi("+" + d) == if Digits(d) <= 9223372036854775807 then Some(Digits(d)) else None
    ensures Atoi("-" + d) == var n: int := Digits(d); if n <= 9223372036854775808 then Some(-n) else None
  {
    assert ("+" + d)[1..] == d && ("-" + d)[1..] == d;
    assert IsDigit(d[0]);
    hide Digits;
  }

  /** And nothing else is. */
  lemma AtoiRejects(s: string)
    ensures Atoi(s).Some? ==>
              exists d: string :: d != "" && (forall i :: 0 <= i < |d| ==> '0' <= d[i] <= '9')
                && (s == d || s == "+" + d || s == "-" + d)
  {
    if Atoi(s).Some? {
      var d := if s[0] == '-' || s[0] == '+' then s[1..] else s;
      assert |d| < |s| ==> s == [s[0]] + d;
      assert forall i :: 0 <= i < |d| ==> IsDigit(d[i]);
    }
  }

  lemma FreeOf(n: nat, c: char)
    requires !IsDigit(c)
    ensures Free(Print(n), c)
  {
  }
}
