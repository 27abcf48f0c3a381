/** The few library types and string operations that several components share. */
module Wrappers {
  datatype Option<+T> = None | Some(value: T)

  /** Some element of a set, as Go's range over a map yields one. */
  method Any<T(==)>(s: set<T>) returns (x: T)
    requires s != {}
    ensures x in s
  {
    x :| x in s;
  }

  lemma Regrouped<T>(a: seq<T>, b: seq<T>, c: seq<T>)
    ensures (a + b) + c == a + (b + c)
  {
  }
}

/** Durations in nanoseconds. */
module Durations {
  const MILLISECOND: int := 1_000_000
  const SECOND: int := 1_000 * MILLISECOND
  const MINUTE: int := 60 * SECOND
}

/** Strings as the Go code sees them: white space, substring search, and decimal integers. */
module Text {

  /** unicode.IsSpace. */
  predicate IsSpace(c: char) {
    c in "\t\n\r \U{0B}\U{0C}\U{85}\U{A0}\U{1680}\U{2028}\U{2029}\U{202F}\U{205F}\U{3000}"
    || '\U{2000}' <= c <= '\U{200A}'
  }

  /** strings.TrimSpace(s) == "". */
  predicate Blank(s: string) {
    forall i | 0 <= i < |s| :: IsSpace(s[i])
  }

  /** strings.Contains. */
  predicate Contains(s: string, part: string) {
    |part| <= |s| && (part <= s || Contains(s[1..], part))
  }

  function DropLeftSpace(s: string): string {
    if s != "" && IsSpace(s[0]) then DropLeftSpace(s[1..]) else s
  }

  function DropRightSpace(s: string): string {
    if s != "" && IsSpace(s[|s| - 1]) then DropRightSpace(s[..|s| - 1]) else s
  }

  /** strings.TrimSpace. */
  function TrimSpace(s: string): string {
    DropRightSpace(DropLeftSpace(s))
  }

  function Digit(d: nat): (c: char)
    requires d < 10
    ensures '0' <= c <= '9'
  {
    "0123456789"[d]
  }

  function Digits(n: nat): (s: string)
    ensures s != "" && forall i | 0 <= i < |s| :: '0' <= s[i] <= '9'
  {
    if n < 10 then [Digit(n)] else Digits(n / 10) + [Digit(n % 10)]
  }

  /** strconv.FormatInt(n, 10). */
  function Decimal(n: int): (s: string)
    ensures s != "" && forall i | 0 <= i < |s| :: s[i] == '-' || '0' <= s[i] <= '9'
  {
    if n < 0 then "-" + Digits(-n) else Digits(n)
  }

  lemma {:induction false} DigitsInjective(m: nat, n: nat)
    requires Digits(m) == Digits(n)
    ensures m == n
  {
    var a, b := Digits(m), Digits(n);
    assert a[|a| - 1] == Digit(m % 10) && b[|b| - 1] == Digit(n % 10);
    assert m % 10 == n % 10;
    if m >= 10 || n >= 10 {
      assert |a| >= 2;
      assert m >= 10 && n >= 10;
      assert a[..|a| - 1] == Digits(m / 10) && b[..|b| - 1] == Digits(n / 10);
      DigitsInjective(m / 10, n / 10);
    }
  }

  /** Two integers with the same decimal form are the same integer. */
  lemma DecimalInjective(m: int, n: int)
    requires Decimal(m) == Decimal(n)
    ensures m == n
  {
    var a, b := Decimal(m), Decimal(n);
    assert (a[0] == '-') == (m < 0) && (b[0] == '-') == (n < 0);
    if m < 0 {
      assert a[1..] == Digits(-m) && b[1..] == Digits(-n);
      DigitsInjective(-m, -n);
    } else {
      DigitsInjective(m, n);
    }
  }

  /** A text split at its first separator has only one reading. */
  lemma SplitUnique(a: string, b: string, x: string, y: string, sep: char)
    requires sep !in a && sep !in b
    requires a + [sep] + x == b + [sep] + y
    ensures a == b && x == y
  {
    var s, t := a + [sep] + x, b + [sep] + y;
    assert s[|a|] == sep && t[|b|] == sep;
    assert forall i | 0 <= i < |a| :: s[i] == a[i] != sep;
    assert forall i | 0 <= i < |b| :: t[i] == b[i] != sep;
    assert a == s[..|a|] && b == t[..|b|];
    assert x == s[|a| + 1..] && y == t[|b| + 1..];
  }

  /** A text split at its last separator has only one reading. */
  lemma SplitUniqueLast(a: string, b: string, x: string, y: string, sep: char)
    requires sep !in x && sep !in y
    requires a + [sep] + x == b + [sep] + y
    ensures a == b && x == y
  {
    var s, t := a + [sep] + x, b + [sep] + y;
    assert s[|a|] == sep && t[|b|] == sep;
    assert forall i | |a| < i < |s| :: s[i] == x[i - |a| - 1] != sep;
    assert forall i | |b| < i < |t| :: t[i] == y[i - |b| - 1] != sep;
    assert a == s[..|a|] && b == t[..|b|];
    assert x == s[|a| + 1..] && y == t[|b| + 1..];
  }
}
