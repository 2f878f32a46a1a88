/** Decimal text of integers as printf's %d writes it, and reading it back. */
module Decimal {

  function DigitChar(d: nat): (c: char)
    requires d < 10
    ensures '0' <= c <= '9'
  {
    ('0' as int + d) as char
  }

  function Digits(n: nat): (s: string)
    ensures s != [] && AllDigits(s)
  {
    if n < 10 then [DigitChar(n)] else Digits(n / 10) + [DigitChar(n % 10)]
  }

  predicate AllDigits(s: string) {
    forall i :: 0 <= i < |s| ==> '0' <= s[i] <= '9'
  }

  /** The number a string of digits denotes. */
  function Number(s: string): nat
    requires AllDigits(s)
  {
    if s == [] then 0
    else 10 * Number(s[..|s| - 1]) + (s[|s| - 1] as int - '0' as int)
  }

  /** %d */
  function Text(i: int): (s: string) {
    if i < 0 then "-" + Digits(-i) else Digits(i)
  }

  lemma {:induction false} NumberOfDigits(n: nat)
    ensures Number(Digits(n)) == n
  {
    var s := Digits(n);
    if n >= 10 {
      NumberOfDigits(n / 10);
      assert s[..|s| - 1] == Digits(n / 10);
    } else {
      assert s[..0] == [];
    }
  }

  /** The integer a text denotes: an optional sign followed by digits; no
      integer otherwise. */
  predicate Numeric(s: string) {
    var body := if s != [] && (s[0] == '-' || s[0] == '+') then s[1..] else s;
    body != [] && AllDigits(body)
  }

  function Signed(s: string): int
    requires Numeric(s)
  {
    if s[0] == '-' then -(Number(s[1..]) as int)
    else if s[0] == '+' then Number(s[1..])
    else Number(s)
  }

  lemma SignedOfText(i: int)
    ensures Numeric(Text(i)) && Signed(Text(i)) == i
  {
    if i < 0 {
      NumberOfDigits(-i);
      assert Text(i)[1..] == Digits(-i);
    } else {
      NumberOfDigits(i);
    }
  }

  lemma TextInjective(i: int, j: int)
    requires Text(i) == Text(j)
    ensures i == j
  {
    SignedOfText(i);
    SignedOfText(j);
  }
}
