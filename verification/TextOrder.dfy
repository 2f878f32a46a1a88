/** How numbers compare once they are written as text, as order ids do in an ordered map. */
module TextOrder {
  import opened Lex
  import opened Decimal

  /** A number without its last d digits. */
  function Dropped(n: nat, d: nat): (r: nat) {
    if d == 0 then n else Dropped(n / 10, d - 1)
  }

  lemma DigitsUnique(m: nat, n: nat)
    requires Digits(m) == Digits(n)
    ensures m == n
  {
    NumberOfDigits(m);
    NumberOfDigits(n);
  }

  /** Dropping digits of the text drops them off the number. */
  lemma {:induction false} DigitsDropped(n: nat, d: nat)
    requires d < |Digits(n)|
    ensures Digits(n)[..|Digits(n)| - d] == Digits(Dropped(n, d))
  {
    var s := Digits(n);
    if d == 0 {
      assert s[..|s|] == s;
    } else {
      DigitsDropped(n / 10, d - 1);
      assert s == Digits(n / 10) + [DigitChar(n % 10)];
      assert s[..|s| - d] == Digits(n / 10)[..|s| - d];
    }
  }

  lemma {:induction false} MoreDigits(m: nat, n: nat)
    requires m <= n
    ensures |Digits(m)| <= |Digits(n)|
  {
    if m >= 10 {
      MoreDigits(m / 10, n / 10);
    }
  }

  /** Texts of one length compare before what follows them. */
  lemma {:induction false} LessByFront(a: string, b: string, x: string, y: string)
    requires |a| == |b|
    ensures Less(a + x, b + y) <==> Less(a, b) || (a == b && Less(x, y))
  {
    if a == [] {
      assert a + x == x && b + y == y;
    } else {
      LessByFront(a[1..], b[1..], x, y);
      assert (a + x)[1..] == a[1..] + x && (b + y)[1..] == b[1..] + y;
      assert a == [a[0]] + a[1..] && b == [b[0]] + b[1..];
    }
  }

  lemma {:induction false} SameLengthOrder(m: nat, n: nat)
    requires |Digits(m)| == |Digits(n)|
    ensures Less(Digits(m), Digits(n)) <==> m < n
  {
    if m < 10 {
      assert |Digits(m)| == 1;
      assert n < 10;
    } else {
      assert n >= 10;
      SameLengthOrder(m / 10, n / 10);
      LastDigits(m, n);
    }
  }

  lemma LastDigits(m: nat, n: nat)
    requires m >= 10 && n >= 10 && |Digits(m / 10)| == |Digits(n / 10)|
    requires Less(Digits(m / 10), Digits(n / 10)) <==> m / 10 < n / 10
    ensures Less(Digits(m), Digits(n)) <==> m < n
  {
    var a, b := Digits(m / 10), Digits(n / 10);
    var x, y := [DigitChar(m % 10)], [DigitChar(n % 10)];
    assert Digits(m) == a + x && Digits(n) == b + y;
    hide Digits, Less, DigitChar;
    LessDigit(m % 10, n % 10);
    TenfoldOrder(m / 10, m % 10, n / 10, n % 10);
    LessByFront(a, b, x, y);
    if a == b {
      DigitsUnique(m / 10, n / 10);
    }
  }

  lemma LessDigit(c: nat, d: nat)
    requires c < 10 && d < 10
    ensures Less([DigitChar(c)], [DigitChar(d)]) <==> c < d
  {
  }

  lemma TenfoldOrder(p: nat, c: nat, q: nat, d: nat)
    requires c < 10 && d < 10
    ensures 10 * p + c < 10 * q + d <==> p < q || (p == q && c < d)
  {
  }

  /** Of two numbers the greater one goes first as text exactly if, cut to as many digits as the
      smaller one has, it is the smaller: 10 before 2, but 2 before 20 and 21. */
  lemma GreaterFirstIff(m: nat, n: nat)
    requires m < n
    ensures |Text(m)| <= |Text(n)|
    ensures Less(Text(n), Text(m)) <==> Dropped(n, |Text(n)| - |Text(m)|) < m
  {
    hide Less, Digits, Dropped;
    var d := |Digits(n)| - |Digits(m)|;
    MoreDigits(m, n);
    DigitsDropped(n, d);
    var front, rest := Digits(n)[..|Digits(n)| - d], Digits(n)[|Digits(n)| - d..];
    assert Digits(n) == front + rest && Digits(m) == Digits(m) + [];
    LessByFront(front, Digits(m), rest, []);
    assert !Less(rest, []) by { NothingBelowEmpty(rest); }
    SameLengthOrder(Dropped(n, d), m);
  }

  lemma NothingBelowEmpty(s: string)
    ensures !Less(s, [])
  {
  }
}
