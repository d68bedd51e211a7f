/** Strings as the program uses them: Go's `<` on strings, decimal integers, and the
    colon that separates the parts of a cluster name. */
module Text {

  /** Lexicographic order, as Go's `<` on strings. */
  predicate Less(a: string, b: string) {
    b != [] && (a == [] || a[0] < b[0] || (a[0] == b[0] && Less(a[1..], b[1..])))
  }

  lemma {:induction false} LessTotal(a: string, b: string)
    ensures !(Less(a, b) && Less(b, a))
    ensures Less(a, b) || a == b || Less(b, a)
  {
    if a != [] && b != [] {
      LessTotal(a[1..], b[1..]);
      assert a == [a[0]] + a[1..] && b == [b[0]] + b[1..];
    }
  }

  lemma {:induction false} LessTransitive(a: string, b: string, c: string)
    requires !Less(b, a) && !Less(c, b)
    ensures !Less(c, a)
  {
    if a != [] && b != [] && c != [] && a[0] == b[0] == c[0] {
      LessTransitive(a[1..], b[1..], c[1..]);
    }
  }

  /** The first k characters agree and the next one of a is the smaller. */
  predicate SmallerAt(a: string, b: string, k: nat) {
    k < |a| && k < |b| && a[..k] == b[..k] && a[k] < b[k]
  }

  /** A text is less than another exactly if it is a proper prefix of it or has the smaller
      character at the first difference. */
  lemma {:induction false} LessIff(a: string, b: string)
    ensures Less(a, b) <==> a < b || exists k :: SmallerAt(a, b, k)
  {
    if a != [] && b != [] {
      if a[0] == b[0] {
        LessIff(a[1..], b[1..]);
        assert a == [a[0]] + a[1..] && b == [b[0]] + b[1..];
        assert a < b <==> a[1..] < b[1..];
        SmallerFurtherOn(a, b);
      } else if a[0] < b[0] {
        assert SmallerAt(a, b, 0);
      }
    }
  }

  lemma SmallerFurtherOn(a: string, b: string)
    requires a != [] && b != [] && a[0] == b[0]
    ensures (exists k :: SmallerAt(a, b, k)) <==> exists k :: SmallerAt(a[1..], b[1..], k)
  {
    if k: nat :| SmallerAt(a, b, k) {
      assert a[1..][..k - 1] == a[..k][1..] == b[..k][1..] == b[1..][..k - 1];
      assert SmallerAt(a[1..], b[1..], k - 1);
    }
    if k: nat :| SmallerAt(a[1..], b[1..], k) {
      assert a[..k + 1] == [a[0]] + a[1..][..k] == [b[0]] + b[1..][..k] == b[..k + 1];
      assert SmallerAt(a, b, k + 1);
    }
  }

  predicate ColonFree(s: string) {
    ':' !in s
  }

  /** A colon-free head is determined by the joined text. */
  lemma {:induction false} SplitAtColon(a: string, x: string, b: string, y: string)
    requires ColonFree(a) && ColonFree(b)
    requires a + ":" + x == b + ":" + y
    ensures a == b && x == y
  {
    var s, t := a + ":" + x, b + ":" + y;
    assert s[|a|] == ':' && t[|b|] == ':';
    assert a == s[..|a|] == t[..|b|] == b;
    assert x == s[|a| + 1..] == t[|b| + 1..] == y;
  }

  const DIGITS := "0123456789"

  /** Decimal digits of a natural number, without leading zeros. */
  function Digits(n: nat): (s: string)
    ensures s != [] && ColonFree(s) && '-' !in s
  {
    if n < 10 then [DIGITS[n]] else Digits(n / 10) + [DIGITS[n % 10]]
  }

  /** strconv.Itoa. */
  function Itoa(n: int): (s: string)
    ensures s != [] && ColonFree(s)
  {
    if n < 0 then "-" + Digits(-n) else Digits(n)
  }

  /* ---- Reading a number back ---- */

  /** Decimal digits, without a leading zero unless that is all there is. */
  predicate Numeral(s: string) {
    s != [] && (forall i :: 0 <= i < |s| ==> '0' <= s[i] <= '9') && (|s| > 1 ==> s[0] != '0')
  }

  /** The value of digits, read from left to right in base ten. */
  function ValueOf(s: string): int {
    if s == [] then 0 else ValueOf(s[..|s| - 1]) * 10 + (s[|s| - 1] as int - '0' as int)
  }

  /** The text is the number in decimal, with a minus sign if it is negative. */
  predicate Writes(s: string, n: int) {
    if n < 0 then s != [] && s[0] == '-' && Numeral(s[1..]) && ValueOf(s[1..]) == -n
    else Numeral(s) && ValueOf(s) == n
  }

  lemma DigitAt(d: nat)
    requires d < 10
    ensures '0' <= DIGITS[d] <= '9' && DIGITS[d] as int == '0' as int + d
  {
  }

  lemma {:induction false} DigitsWrite(n: nat)
    ensures Numeral(Digits(n)) && ValueOf(Digits(n)) == n
    ensures Digits(n)[0] == '0' <==> n == 0
  {
    DigitAt(n % 10);
    if n >= 10 {
      DigitsWrite(n / 10);
      assert Digits(n)[..|Digits(n)| - 1] == Digits(n / 10);
    } else {
      assert Digits(n)[..0] == [];
    }
  }

  lemma {:induction false} NumeralIsPositive(s: string)
    requires Numeral(s) && s[0] != '0'
    ensures ValueOf(s) > 0
  {
    if |s| > 1 {
      NumeralIsPositive(s[..|s| - 1]);
    } else {
      assert s[..0] == [];
    }
  }

  lemma DigitOf(c: char)
    requires '0' <= c <= '9'
    ensures DIGITS[c as int - '0' as int] == c
  {
    DigitAt(c as int - '0' as int);
  }

  lemma OneDigitMore(v: nat, d: nat)
    requires v > 0 && d < 10
    ensures Digits(v * 10 + d) == Digits(v) + [DIGITS[d]]
  {
    assert (v * 10 + d) / 10 == v && (v * 10 + d) % 10 == d;
  }

  lemma LongNumeral(s: string)
    requires Numeral(s) && |s| > 1
    ensures Numeral(s[..|s| - 1]) && ValueOf(s[..|s| - 1]) > 0 && s == s[..|s| - 1] + [s[|s| - 1]]
  {
    NumeralIsPositive(s[..|s| - 1]);
  }

  lemma ValueOfOneMore(init: string, c: char)
    ensures ValueOf(init + [c]) == ValueOf(init) * 10 + (c as int - '0' as int)
  {
    assert (init + [c])[..|init|] == init;
  }

  lemma NumeralExtends(init: string, c: char, v: nat)
    requires '0' <= c <= '9' && v > 0 && init == Digits(v)
    ensures init + [c] == Digits(v * 10 + (c as int - '0' as int))
  {
    DigitOf(c);
    OneDigitMore(v, c as int - '0' as int);
  }

  lemma ShortNumeral(s: string)
    requires Numeral(s) && |s| == 1
    ensures ValueOf(s) >= 0 && s == Digits(ValueOf(s))
  {
    DigitOf(s[0]);
    assert s[..0] == [];
  }

  lemma {:induction false} OneNumeral(s: string)
    requires Numeral(s)
    ensures ValueOf(s) >= 0 && s == Digits(ValueOf(s))
  {
    if |s| == 1 {
      ShortNumeral(s);
    } else {
      LongNumeral(s);
      OneNumeral(s[..|s| - 1]);
      ValueOfOneMore(s[..|s| - 1], s[|s| - 1]);
      NumeralExtends(s[..|s| - 1], s[|s| - 1], ValueOf(s[..|s| - 1]));
    }
  }

  lemma DigitsWriteOnly(s: string, n: nat)
    ensures Numeral(s) && ValueOf(s) == n <==> s == Digits(n)
  {
    DigitsWrite(n);
    if Numeral(s) {
      OneNumeral(s);
    }
  }

  /** Itoa writes every number, and nothing else does. */
  lemma ItoaWrites(s: string, n: int)
    ensures Writes(s, n) <==> s == Itoa(n)
  {
    if n >= 0 {
      DigitsWriteOnly(s, n);
    } else if s != [] {
      DigitsWriteOnly(s[1..], -n);
      assert s == [s[0]] + s[1..];
      assert ("-" + Digits(-n))[1..] == Digits(-n);
    }
  }

  lemma ItoaInjective(m: int, n: int)
    requires Itoa(m) == Itoa(n)
    ensures m == n
  {
    ItoaWrites(Itoa(m), m);
    ItoaWrites(Itoa(m), n);
  }
}
