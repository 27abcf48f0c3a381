/** Reading back the decimal form of an integer. */
module Numbers {
  import opened Wrappers
  import opened Text

  const MAX_INT64: int := 0x7FFF_FFFF_FFFF_FFFF

  type int64 = x: int | -MAX_INT64 - 1 <= x <= MAX_INT64

  predicate AllDigits(s: string) { forall i | 0 <= i < |s| :: '0' <= s[i] <= '9' }

  function Value(s: string): nat
    requires AllDigits(s)
  {
    if s == "" then 0 else Value(s[..|s| - 1]) * 10 + (s[|s| - 1] as int - '0' as int)
  }

  /** strconv.ParseInt(s, 10, 64); an error is None. */
  function ParseInt(s: string): Option<int> {
    if s == "" then None
    else
      var digits := if s[0] == '-' || s[0] == '+' then s[1..] else s;
      if digits == "" || !AllDigits(digits) then None
      else
        var v: int := Value(digits);
        var n := if s[0] == '-' then -v else v;
        if -MAX_INT64 - 1 <= n <= MAX_INT64 then Some(n) else None
  }

  lemma {:induction false} ValueOfDigits(n: nat)
    ensures Value(Digits(n)) == n
  {
    var s := Digits(n);
    assert s[|s| - 1] == Digit(n % 10);
    if n < 10 {
      assert s[..0] == "";
    } else {
      ValueOfDigits(n / 10);
      assert s[..|s| - 1] == Digits(n / 10);
    }
  }

  /** Parsing what was formatted gives the integer back. */
  lemma ParseDecimal(n: int)
    requires -MAX_INT64 - 1 <= n <= MAX_INT64
    ensures ParseInt(Decimal(n)) == Some(n)
  {
    var s := Decimal(n);
    if n < 0 {
      ValueOfDigits(-n);
      assert s[0] == '-' && s[1..] == Digits(-n);
    } else {
      ValueOfDigits(n);
      assert s[0] != '-' && s[0] != '+';
    }
  }
}
