/** Decimal rendering of integers, as Go's `fmt.Sprintf("%d", n)` produces it:
    an optional '-' followed by the digits of |n|, with no leading zeros. The
    parser is the partner that the round-trip lemma relates it to. */
module Decimal {
  import opened Results
  import opened Text

  function DigitChar(d: nat): (c: char)
    requires d < 10
    ensures IsDigit(c) && DigitValue(c) == d
  {
    (('0' as int) + d) as char
  }

  function DigitValue(c: char): nat
    requires IsDigit(c)
  {
    (c as int) - ('0' as int)
  }

  predicate AllDigits(s: string)
  {
    forall i | 0 <= i < |s| :: IsDigit(s[i])
  }

  /** Digits of a natural number, most significant first. */
  function NatToDecimal(n: nat): (s: string)
    ensures |s| >= 1 && AllDigits(s)
    ensures s[0] == '0' <==> n == 0
    ensures n == 0 ==> s == "0"
    decreases n
  {
    if n < 10 then [DigitChar(n)]
    else NatToDecimal(n / 10) + [DigitChar(n % 10)]
  }

  /** The shape `%d` produces: digits with no leading zero (zero itself is
      "0"), or '-' followed by such digits that do not start with '0'. */
  predicate Canonical(s: string)
  {
    || (|s| >= 1 && AllDigits(s) && (s[0] == '0' ==> |s| == 1))
    || (|s| >= 2 && s[0] == '-' && AllDigits(s[1..]) && s[1] != '0')
  }

  /** `fmt.Sprintf("%d", n)` for a signed integer. */
  function IntToDecimal(n: int): (s: string)
    ensures Canonical(s)
    ensures n < 0 <==> s[0] == '-'
  {
    if n < 0 then "-" + NatToDecimal(-n) else NatToDecimal(n)
  }

  /** Value of a string of digits, read left to right. */
  function DigitsValue(s: string): nat
    requires AllDigits(s)
    decreases |s|
  {
    if s == [] then 0
    else DigitsValue(s[..|s| - 1]) * 10 + DigitValue(s[|s| - 1])
  }

  /** Reads back an optionally signed, non-empty string of digits. */
  function ParseDecimal(s: string): Option<int>
  {
    if |s| >= 2 && s[0] == '-' && AllDigits(s[1..]) then Some(-(DigitsValue(s[1..]) as int))
    else if |s| >= 1 && AllDigits(s) then Some(DigitsValue(s))
    else None
  }

  lemma {:induction false} NatRoundTrip(n: nat)
    ensures DigitsValue(NatToDecimal(n)) == n
    decreases n
  {
    var s := NatToDecimal(n);
    if n < 10 {
      assert s[..|s| - 1] == [];
    } else {
      var front := NatToDecimal(n / 10);
      assert s == front + [DigitChar(n % 10)];
      assert s[..|s| - 1] == front;
      NatRoundTrip(n / 10);
    }
  }

  /** Parsing the rendering of any integer gives that integer back. */
  lemma {:induction false} RoundTrip(n: int)
    ensures ParseDecimal(IntToDecimal(n)) == Some(n)
  {
    if n < 0 {
      var digits := NatToDecimal(-n);
      assert IntToDecimal(n) == "-" + digits;
      assert ("-" + digits)[1..] == digits;
      NatRoundTrip(-n);
    } else {
      NatRoundTrip(n);
    }
  }

  /** A string of digits whose value is zero starts with '0'. */
  lemma {:induction false} ZeroValueLeadingZero(s: string)
    requires |s| >= 1 && AllDigits(s) && DigitsValue(s) == 0
    ensures s[0] == '0'
    decreases |s|
  {
    var front := s[..|s| - 1];
    if |front| >= 1 {
      ZeroValueLeadingZero(front);
    }
  }

  /** Reading a canonical digit string and rendering its value gives the
      string back. */
  lemma {:induction false} CanonicalNatUnique(s: string)
    requires |s| >= 1 && AllDigits(s) && (s[0] == '0' ==> |s| == 1)
    ensures NatToDecimal(DigitsValue(s)) == s
    decreases |s|
  {
    var n := DigitsValue(s);
    var front, c := s[..|s| - 1], s[|s| - 1];
    assert s == front + [c];
    if |s| == 1 {
      assert front == [];
      assert DigitChar(DigitValue(c)) == c;
    } else {
      assert front[0] == s[0];
      if DigitsValue(front) == 0 {
        ZeroValueLeadingZero(front);
        assert false;
      }
      CanonicalNatUnique(front);
      assert n / 10 == DigitsValue(front) && n % 10 == DigitValue(c);
      assert DigitChar(DigitValue(c)) == c;
    }
  }

  /** A canonical string is the rendering of the number it parses to: `%d`
      has exactly one output per integer, and no other string reads back to
      that integer in canonical form. */
  lemma CanonicalUnique(s: string, n: int)
    requires Canonical(s) && ParseDecimal(s) == Some(n)
    ensures s == IntToDecimal(n)
  {
    if |s| >= 2 && s[0] == '-' && AllDigits(s[1..]) {
      var t := s[1..];
      assert t[0] == s[1];
      CanonicalNatUnique(t);
      if DigitsValue(t) == 0 {
        ZeroValueLeadingZero(t);
        assert false;
      }
      assert s == "-" + t;
    } else {
      CanonicalNatUnique(s);
    }
  }

  /** Distinct integers render to distinct strings. */
  lemma Injective(a: int, b: int)
    requires IntToDecimal(a) == IntToDecimal(b)
    ensures a == b
  {
    RoundTrip(a);
    RoundTrip(b);
  }
}
