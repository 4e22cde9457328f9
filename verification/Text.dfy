/** Numerals and separators: the string facts that address, route, endpoint and JSON texts rest on. */
module Text {

  function Digit(d: nat): char
    requires d < 16
  {
    "0123456789abcdef"[d]
  }

  /** `n.toString(base)`: the numeral of `n`, most significant digit first, no leading zero. */
  function Numeral(n: nat, base: nat): string
    requires base in {10, 16}
  {
    if n < base then [Digit(n)] else Numeral(n / base, base) + [Digit(n % base)]
  }

  predicate IsDigit(c: char) {
    '0' <= c <= '9' || 'a' <= c <= 'f'
  }

  lemma {:induction false} NumeralDigits(n: nat, base: nat)
    requires base in {10, 16}
    ensures Numeral(n, base) != ""
    ensures forall c :: c in Numeral(n, base) ==> IsDigit(c)
    ensures base == 10 ==> forall c :: c in Numeral(n, base) ==> '0' <= c <= '9'
  {
    if n >= base {
      NumeralDigits(n / base, base);
    }
  }

  lemma DigitInjective(a: nat, b: nat)
    requires a < 16 && b < 16 && Digit(a) == Digit(b)
    ensures a == b
  {
  }

  lemma NumeralParts(n: nat, base: nat)
    requires base in {10, 16}
    ensures var s := Numeral(n, base);
            && |s| >= 1
            && s[|s| - 1] == Digit(n % base)
            && (|s| == 1 <==> n < base)
            && (n >= base ==> s[..|s| - 1] == Numeral(n / base, base))
  {
    if n >= base {
      NumeralDigits(n / base, base);
    }
  }

  lemma FromParts(m: nat, n: nat, base: nat)
    requires base in {10, 16} && m / base == n / base && m % base == n % base
    ensures m == n
  {
    if base == 10 {
    } else {
      assert base == 16;
    }
  }

  lemma QuotientSmaller(n: nat, base: nat)
    requires base in {10, 16} && n >= base
    ensures n / base < n
  {
    if base == 10 {
    } else {
      assert base == 16;
    }
  }

  lemma RemainderIsSelf(n: nat, base: nat)
    requires base in {10, 16}
    ensures n < base ==> n % base == n && n / base == 0
  {
    if base == 10 {
    } else {
      assert base == 16;
    }
  }

  /** Distinct numbers have distinct numerals. */
  lemma {:induction false} NumeralInjective(m: nat, n: nat, base: nat)
    requires base in {10, 16}
    requires Numeral(m, base) == Numeral(n, base)
    ensures m == n
    decreases m
  {
    NumeralParts(m, base);
    NumeralParts(n, base);
    DigitInjective(m % base, n % base);
    RemainderIsSelf(m, base);
    RemainderIsSelf(n, base);
    if m >= base {
      QuotientSmaller(m, base);
      NumeralInjective(m / base, n / base, base);
    }
    FromParts(m, n, base);
  }

  /** A separator that occurs in neither left part splits a joined text in only one way. */
  lemma SplitFirst(a: string, b: string, c: string, d: string, sep: char)
    requires sep !in a && sep !in c
    requires a + [sep] + b == c + [sep] + d
    ensures a == c && b == d
  {
    var s := a + [sep] + b;
    assert s[|a|] == sep && s[|c|] == sep;
    assert |a| == |c|;
    assert a == s[..|a|] && c == s[..|c|];
    assert b == s[|a| + 1..] && d == s[|c| + 1..];
  }

  /** A separator that occurs in neither right part splits a joined text in only one way. */
  lemma SplitLast(a: string, b: string, c: string, d: string, sep: char)
    requires sep !in b && sep !in d
    requires a + [sep] + b == c + [sep] + d
    ensures a == c && b == d
  {
    var s := a + [sep] + b;
    assert s[|a|] == sep && s[|c|] == sep;
    assert |a| == |c|;
    assert a == s[..|a|] && c == s[..|c|];
    assert b == s[|a| + 1..] && d == s[|c| + 1..];
  }
}
