/** Decimal text of integers: strconv.Itoa, strconv.Atoi and strings.TrimSpace. */
module Decimal {
  import opened Common

  predicate IsDigit(c: char) {
    '0' <= c <= '9'
  }

  predicate AllDigits(s: string) {
    forall i :: 0 <= i < |s| ==> IsDigit(s[i])
  }

  function Digit(d: nat): (c: char)
    requires d < 10
    ensures IsDigit(c) && c as int - '0' as int == d
  {
    ('0' as int + d) as char
  }

  function Itoa(n: nat): (s: string)
    ensures s != "" && AllDigits(s)
  {
    if n < 10 then [Digit(n)] else Itoa(n / 10) + [Digit(n % 10)]
  }

  function Value(s: string): nat
    requires AllDigits(s)
  {
    if s == "" then 0 else 10 * Value(s[..|s| - 1]) + (s[|s| - 1] as int - '0' as int)
  }

  lemma {:induction false} ItoaRoundTrip(n: nat)
    ensures Value(Itoa(n)) == n
  {
    var s := Itoa(n);
    if n < 10 {
      assert s[..0] == "";
    } else {
      ItoaRoundTrip(n / 10);
      assert s[..|s| - 1] == Itoa(n / 10);
    }
  }

  predicate IsSpace(c: char) {
    c == ' ' || c == '\t' || c == '\n' || c == '\r'
  }

  function TrimSpace(s: string): string {
    if s != "" && IsSpace(s[0]) then TrimSpace(s[1..])
    else if s != "" && IsSpace(s[|s| - 1]) then TrimSpace(s[..|s| - 1])
    else s
  }

  function Atoi(s: string): Option<int> {
    if s != "" && AllDigits(s) then Some(Value(s))
    else if |s| > 1 && (s[0] == '-' || s[0] == '+') && AllDigits(s[1..])
    then
      var v: int := Value(s[1..]);
      Some(if s[0] == '-' then -v else v)
    else None
  }

  /** A number written to a file reads back. */
  lemma AtoiOfItoa(n: nat)
    ensures Atoi(TrimSpace(Itoa(n))) == Some(n)
  {
    ItoaRoundTrip(n);
  }

  /** Splitting `base-number` at its last dash is unambiguous. */
  lemma DashNumberInjective(base1: string, n1: nat, base2: string, n2: nat)
    requires base1 + "-" + Itoa(n1) == base2 + "-" + Itoa(n2)
    ensures base1 == base2 && n1 == n2
  {
    var t := base1 + "-" + Itoa(n1);
    assert t == base2 + "-" + Itoa(n2);
    assert t[|base1|] == '-' && t[|base2|] == '-';
    assert forall i :: |base1| < i < |t| ==> t[i] == Itoa(n1)[i - |base1| - 1];
    assert forall i :: |base2| < i < |t| ==> t[i] == Itoa(n2)[i - |base2| - 1];
    assert |base1| == |base2|;
    assert base1 == t[..|base1|] && base2 == t[..|base2|];
    assert Itoa(n1) == t[|base1| + 1..] && Itoa(n2) == t[|base2| + 1..];
    ItoaRoundTrip(n1);
    ItoaRoundTrip(n2);
  }
}
