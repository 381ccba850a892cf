/** Decimal numerals as the program writes them into keys, bare and padded with zeros. */
module Decimal {
  import Lex

  function Digit(d: nat): (c: char)
    requires d < 10
    ensures '0' <= c <= '9'
  {
    '0' + d as char
  }

  function Digits(n: nat): (s: string)
    ensures s != ""
    ensures forall c | c in s :: '0' <= c <= '9'
  {
    if n < 10 then [Digit(n)] else Digits(n / 10) + [Digit(n % 10)]
  }

  lemma {:induction false} DigitsAreInjective(a: nat, b: nat)
    requires Digits(a) == Digits(b)
    ensures a == b
    decreases a
  {
    if a < 10 || b < 10 {
      assert |Digits(a)| == 1 <==> a < 10;
      assert |Digits(b)| == 1 <==> b < 10;
    } else {
      var m, n := Digits(a / 10), Digits(b / 10);
      assert Digits(a)[|m|] == Digit(a % 10) && Digits(b)[|n|] == Digit(b % 10);
      assert Digits(a)[..|m|] == m && Digits(b)[..|n|] == n;
      DigitsAreInjective(a / 10, b / 10);
    }
  }

  function Pow10(w: nat): (p: nat)
    ensures p > 0
  {
    if w == 0 then 1 else 10 * Pow10(w - 1)
  }

  function Zeros(k: nat): string {
    seq(k, _ => '0')
  }

  /** `f"{n:0{w}d}"`: at least `w` characters wide. */
  function Padded(n: nat, w: nat): string {
    if |Digits(n)| < w then Zeros(w - |Digits(n)|) + Digits(n) else Digits(n)
  }

  lemma {:induction false} FewDigits(n: nat, w: nat)
    requires w > 0
    ensures n < Pow10(w) <==> |Digits(n)| <= w
  {
    if n >= 10 {
      if w == 1 {
        assert Pow10(1) == 10 * Pow10(0);
      } else {
        FewDigits(n / 10, w - 1);
      }
    } else {
      AtLeastTen(w);
    }
  }

  lemma {:induction false} AtLeastTen(w: nat)
    requires w > 0
    ensures Pow10(w) >= 10
  {
    if w > 1 { AtLeastTen(w - 1); }
  }

  /** A numeral of exactly `w` digits. */
  function Fixed(n: nat, w: nat): string {
    if w == 0 then "" else Fixed(n / 10, w - 1) + [Digit(n % 10)]
  }

  lemma {:induction false} PaddedIsFixed(n: nat, w: nat)
    requires w > 0 && n < Pow10(w)
    ensures Padded(n, w) == Fixed(n, w)
  {
    FewDigits(n, w);
    if n < 10 {
      OneDigitIsFixed(n, w);
    } else {
      assert Pow10(1) == 10 * Pow10(0);
      PaddedIsFixed(n / 10, w - 1);
      FewDigits(n / 10, w - 1);
      assert Padded(n, w) == Padded(n / 10, w - 1) + [Digit(n % 10)];
    }
  }

  lemma {:induction false} ZeroIsFixed(w: nat)
    ensures Fixed(0, w) == Zeros(w)
  {
    if w > 0 { ZeroIsFixed(w - 1); }
  }

  lemma OneDigitIsFixed(n: nat, w: nat)
    requires w > 0 && n < 10
    ensures Padded(n, w) == Fixed(n, w)
  {
    ZeroIsFixed(w - 1);
  }

  lemma {:induction false} OrderByLastCharacter(x: string, y: string, c: char, d: char)
    requires |x| == |y|
    ensures Lex.Lt(x, y) ==> Lex.Lt(x + [c], y + [d])
    ensures x == y && c < d ==> Lex.Lt(x + [c], y + [d])
  {
    if x != "" {
      assert (x + [c])[1..] == x[1..] + [c] && (y + [d])[1..] == y[1..] + [d];
      OrderByLastCharacter(x[1..], y[1..], c, d);
      if Lex.Lt(x, y) && x[0] == y[0] {
        assert x[1..] != y[1..] by { assert x == [x[0]] + x[1..] && y == [y[0]] + y[1..]; }
      }
    }
  }

  lemma {:induction false} FixedLength(n: nat, w: nat)
    ensures |Fixed(n, w)| == w
  {
    if w > 0 { FixedLength(n / 10, w - 1); }
  }

  lemma {:induction false} FixedOrder(a: nat, b: nat, w: nat)
    requires a < b < Pow10(w)
    ensures Lex.Lt(Fixed(a, w), Fixed(b, w))
  {
    if w > 0 {
      FixedLength(a / 10, w - 1);
      FixedLength(b / 10, w - 1);
      OrderByLastCharacter(Fixed(a / 10, w - 1), Fixed(b / 10, w - 1), Digit(a % 10), Digit(b % 10));
      if a / 10 < b / 10 { FixedOrder(a / 10, b / 10, w - 1); }
    }
  }

  /** Padded numerals that fit their width sort as the numbers do. */
  lemma PaddedOrder(a: nat, b: nat, w: nat)
    requires w > 0 && a < b < Pow10(w)
    ensures Lex.Lt(Padded(a, w), Padded(b, w))
  {
    PaddedIsFixed(a, w);
    PaddedIsFixed(b, w);
    FixedOrder(a, b, w);
  }

  lemma {:induction false} PowerDigits(w: nat)
    ensures Digits(Pow10(w)) == "1" + Zeros(w)
  {
    if w > 0 {
      PowerDigits(w - 1);
      assert Pow10(w) / 10 == Pow10(w - 1) && Pow10(w) % 10 == 0;
    }
  }

  lemma {:induction false} NinesDigits(w: nat)
    requires w > 0
    ensures |Digits(Pow10(w) - 1)| == w && Digits(Pow10(w) - 1)[0] == '9'
  {
    if w > 1 {
      AtLeastTen(w - 1);
      NinesDigits(w - 1);
      assert (Pow10(w) - 1) / 10 == Pow10(w - 1) - 1;
    } else {
      assert Pow10(1) == 10 * Pow10(0);
    }
  }

  /** Padding loses nothing: leading zeros are never part of a numeral but for zero itself. */
  lemma PaddedIsInjective(a: nat, b: nat, w: nat)
    requires w > 0 && Padded(a, w) == Padded(b, w)
    ensures a == b
  {
    FewDigits(a, w);
    FewDigits(b, w);
    if a < Pow10(w) && b < Pow10(w) {
      PaddedIsFixed(a, w);
      PaddedIsFixed(b, w);
      if a < b { FixedOrder(a, b, w); }
      if b < a { FixedOrder(b, a, w); }
    } else {
      DigitsAreInjective(a, b);
    }
  }
}
