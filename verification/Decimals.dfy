/** The decimal texts produced by fmt's %d and %010d verbs. */
module Decimals {
  import opened Orders

  function Digit(d: nat): char
    requires d < 10
  {
    "0123456789"[d]
  }

  function Digits(n: nat): (s: string)
    ensures s != []
  {
    if n < 10 then [Digit(n)] else Digits(n / 10) + [Digit(n % 10)]
  }

  /** Zeros on the left up to the given width. */
  function Padded(s: string, width: nat): string
    decreases width - |s|
  {
    if |s| >= width then s else Padded("0" + s, width)
  }

  /** fmt.Sprintf("%010d", n): the sign counts towards the width. */
  function TenWide(n: int): string {
    if n >= 0 then Padded(Digits(n), 10) else "-" + Padded(Digits(-n), 9)
  }

  function Value(s: string): int {
    if s == [] then 0 else Value(s[..|s| - 1]) * 10 + (s[|s| - 1] as int - '0' as int)
  }

  lemma {:induction false} ValueOfDigits(n: nat)
    ensures Value(Digits(n)) == n
    ensures forall i :: 0 <= i < |Digits(n)| ==> '0' <= Digits(n)[i] <= '9'
  {
    if n < 10 {
      assert Value([Digit(n)]) == Digit(n) as int - '0' as int;
    } else {
      ValueOfDigits(n / 10);
      assert Digits(n)[..|Digits(n)| - 1] == Digits(n / 10);
    }
  }

  lemma {:induction false} ValueOfZeroPrefix(s: string)
    ensures Value("0" + s) == Value(s)
  {
    if s != [] {
      ValueOfZeroPrefix(s[..|s| - 1]);
      assert ("0" + s)[..|s|] == "0" + s[..|s| - 1];
    }
  }

  lemma {:induction false} ValueOfPadded(s: string, width: nat)
    requires s != [] && forall i :: 0 <= i < |s| ==> '0' <= s[i] <= '9'
    ensures Value(Padded(s, width)) == Value(s)
    ensures Padded(s, width) != [] && Padded(s, width)[0] != '-'
    decreases width - |s|
  {
    if |s| < width {
      ValueOfZeroPrefix(s);
      ValueOfPadded("0" + s, width);
    }
  }

  lemma DigitsInjective(m: nat, n: nat)
    ensures Digits(m) == Digits(n) ==> m == n
  {
    ValueOfDigits(m);
    ValueOfDigits(n);
  }

  lemma TenWideValue(x: int)
    ensures x >= 0 ==> TenWide(x) != [] && TenWide(x)[0] != '-' && Value(TenWide(x)) == x
    ensures x < 0 ==> TenWide(x)[0] == '-' && Value(TenWide(x)[1..]) == -x
  {
    if x >= 0 {
      ValueOfDigits(x);
      ValueOfPadded(Digits(x), 10);
    } else {
      ValueOfDigits(-x);
      ValueOfPadded(Digits(-x), 9);
      assert TenWide(x)[1..] == Padded(Digits(-x), 9);
    }
  }

  lemma TenWideInjective(m: int, n: int)
    ensures TenWide(m) == TenWide(n) ==> m == n
  {
    TenWideValue(m);
    TenWideValue(n);
  }

  // ----- numeric order is text order -----

  function PowerOfTen(n: nat): nat {
    if n == 0 then 1 else 10 * PowerOfTen(n - 1)
  }

  lemma {:induction false} DigitsFit(n: nat, width: nat)
    requires width >= 1 && n < PowerOfTen(width)
    ensures |Digits(n)| <= width
  {
    if n >= 10 {
      DigitsFit(n / 10, width - 1);
    }
  }

  ghost predicate Decimal(s: string) {
    forall i :: 0 <= i < |s| ==> '0' <= s[i] <= '9'
  }

  lemma {:induction false} PaddedDecimal(s: string, width: nat)
    requires Decimal(s)
    ensures Decimal(Padded(s, width)) && |Padded(s, width)| == if |s| < width then width else |s|
    decreases width - |s|
  {
    if |s| < width { PaddedDecimal("0" + s, width); }
  }

  /** Lists of equal length are compared by their fronts first, then by their last characters. */
  lemma {:induction false} LessByFront(s: string, t: string, c: char, d: char)
    requires |s| == |t|
    ensures Less(s + [c], t + [d]) <==> Less(s, t) || (s == t && c < d)
  {
    if s == [] {
      assert s + [c] == [c] && t + [d] == [d];
    } else {
      assert (s + [c])[1..] == s[1..] + [c] && (t + [d])[1..] == t[1..] + [d];
      assert s == [s[0]] + s[1..] && t == [t[0]] + t[1..];
      LessByFront(s[1..], t[1..], c, d);
      if s[0] == t[0] { assert s == t <==> s[1..] == t[1..]; }
    }
  }

  lemma {:induction false} EqualWidthOrder(s: string, t: string)
    requires |s| == |t| && Decimal(s) && Decimal(t)
    ensures Less(s, t) <==> Value(s) < Value(t)
    ensures s == t <==> Value(s) == Value(t)
  {
    if s != [] {
      var n := |s| - 1;
      EqualWidthOrder(s[..n], t[..n]);
      LessByFront(s[..n], t[..n], s[n], t[n]);
      assert s == s[..n] + [s[n]] && t == t[..n] + [t[n]];
    }
  }

  /** Ten-wide texts of numbers below ten billion are ordered like the numbers. */
  lemma TenWideOrder(a: nat, b: nat)
    requires a < 10_000_000_000 && b < 10_000_000_000
    ensures Less(TenWide(a), TenWide(b)) <==> a < b
  {
    TenWideShape(a);
    TenWideShape(b);
    EqualWidthOrder(TenWide(a), TenWide(b));
  }

  lemma TenWideShape(a: nat)
    requires a < 10_000_000_000
    ensures |TenWide(a)| == 10 && Decimal(TenWide(a)) && Value(TenWide(a)) == a
  {
    TenBillion();
    DigitsFit(a, 10);
    ValueOfDigits(a);
    PaddedDecimal(Digits(a), 10);
    TenWideValue(a);
  }

  lemma TenBillion()
    ensures PowerOfTen(10) == 10_000_000_000
  {
    assert PowerOfTen(5) == 100_000;
  }
}
