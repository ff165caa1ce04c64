// Canonical decimal numbers: `parse_canonical_u64` in `src/cli.rs` and the default integer
// formatting it undoes.
module Decimal {
  import opened Wrappers
  import opened Bits

  function Digit(n: nat): char
    requires n < 10
  {
    "0123456789"[n]
  }

  predicate IsDigit(c: char)
  {
    '0' <= c <= '9'
  }

  function DigitValue(c: char): (n: nat)
    requires IsDigit(c)
    ensures n < 10 && Digit(n) == c
  {
    var n := c as int - '0' as int;
    assert c == (n + '0' as int) as char;
    n
  }

  function Print(n: nat): string
  {
    if n < 10 then [Digit(n)] else Print(n / 10) + [Digit(n % 10)]
  }

  predicate AllDigits(s: string)
  {
    forall i :: 0 <= i < |s| ==> IsDigit(s[i])
  }

  function Value(s: string): nat
    requires AllDigits(s)
  {
    if s == "" then 0 else Value(s[..|s| - 1]) * 10 + DigitValue(s[|s| - 1])
  }

  // No sign, no leading zero, at least one digit.
  predicate Canonical(s: string)
  {
    s != "" && (|s| > 1 ==> s[0] != '0') && AllDigits(s)
  }

  datatype ParseError = NotCanonical | OutOfRange

  function ParseU64(s: string): Result<u64, ParseError>
  {
    if !Canonical(s) then Failure(NotCanonical)
    else if Value(s) > U64_MAX then Failure(OutOfRange)
    else Success(Value(s))
  }

  lemma PrintStep(q: nat, d: nat)
    requires q > 0 && d < 10
    ensures Print(q * 10 + d) == Print(q) + [Digit(d)]
  {
    assert (q * 10 + d) / 10 == q && (q * 10 + d) % 10 == d;
  }

  lemma ValueStep(t: string, d: nat)
    requires AllDigits(t) && d < 10
    ensures AllDigits(t + [Digit(d)]) && Value(t + [Digit(d)]) == Value(t) * 10 + d
  {
    assert (t + [Digit(d)])[..|t|] == t;
  }

  lemma {:induction false} PrintIsCanonical(n: nat)
    ensures Canonical(Print(n)) && Value(Print(n)) == n
    ensures n > 0 ==> Print(n)[0] != '0'
  {
    if n < 10 {
      ValueStep("", n);
      assert "" + [Digit(n)] == Print(n);
    } else {
      PrintIsCanonical(n / 10);
      ValueStep(Print(n / 10), n % 10);
    }
  }

  lemma {:induction false} CanonicalIsPrinted(s: string)
    requires Canonical(s)
    ensures Print(Value(s)) == s
    ensures s[0] != '0' ==> Value(s) > 0
  {
    var t, d := s[..|s| - 1], DigitValue(s[|s| - 1]);
    if t == "" {
      assert s == [Digit(d)];
    } else {
      CanonicalIsPrinted(t);
      PrintStep(Value(t), d);
      assert s == t + [Digit(d)];
    }
  }

  // Parsing and printing are inverse: the accepted strings are exactly the printed numbers
  // below 2^64.
  lemma ParseUndoesPrint(s: string, n: nat)
    ensures ParseU64(s) == Success(n) <==> s == Print(n) && n <= U64_MAX
  {
    PrintIsCanonical(n);
    if Canonical(s) {
      CanonicalIsPrinted(s);
    }
  }

  lemma PrintHasNoColon(n: nat)
    ensures ':' !in Print(n)
  {
    PrintIsCanonical(n);
  }
}
