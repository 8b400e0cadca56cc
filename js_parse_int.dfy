/**
 * `parseInt(string)` called without a radix, as section 19.2.5 of ECMA-262 defines it:
 * leading white space is skipped, one optional sign is read, a "0x"/"0X" prefix selects
 * radix 16 (otherwise radix 10), and the longest prefix of digits of that radix is
 * converted; no digits at all gives NaN, modelled as None.
 */
module JsParseInt {
  import opened Wrappers
  import opened JsStrings

  /** The value of an alphanumeric digit (0-9, then a-z / A-Z as 10-35); 36 for anything else. */
  function DigitValue(c: char): (d: nat)
    ensures d <= 36
  {
    if '0' <= c <= '9' then (c - '0') as nat
    else if 'a' <= c <= 'z' then (c - 'a') as nat + 10
    else if 'A' <= c <= 'Z' then (c - 'A') as nat + 10
    else 36
  }

  predicate IsDigit(c: char, radix: nat) {
    DigitValue(c) < radix
  }

  /** The longest prefix of `s` made of digits of `radix`. */
  function DigitPrefix(s: string, radix: nat): (r: string)
    ensures |r| <= |s| && r == s[..|r|]
    ensures forall i :: 0 <= i < |r| ==> IsDigit(r[i], radix)
    ensures |r| < |s| ==> !IsDigit(s[|r|], radix)
  {
    if s == [] || !IsDigit(s[0], radix) then [] else [s[0]] + DigitPrefix(s[1..], radix)
  }

  /** The number the digit string `ds` denotes in base `radix`. */
  function DigitsValue(ds: string, radix: nat): nat {
    if ds == [] then 0
    else DigitsValue(ds[..|ds| - 1], radix) * radix + DigitValue(ds[|ds| - 1])
  }

  /** Step 1 after the white space: one optional sign; the number is negative when it is '-'. */
  predicate IsNegative(t: string) {
    t != [] && t[0] == '-'
  }

  /** What follows the optional sign. */
  function AfterSign(t: string): string {
    if t != [] && (t[0] == '-' || t[0] == '+') then t[1..] else t
  }

  predicate HasHexPrefix(u: string) {
    |u| >= 2 && u[0] == '0' && (u[1] == 'x' || u[1] == 'X')
  }

  /** Step 2: a "0x" or "0X" prefix selects radix 16; otherwise radix 10. */
  function RadixOf(u: string): nat {
    if HasHexPrefix(u) then 16 else 10
  }

  /** What follows the radix prefix, if there is one. */
  function AfterPrefix(u: string): string {
    if HasHexPrefix(u) then u[2..] else u
  }

  /** The steps of `parseInt` after leading white space is gone. */
  function ParseNumeral(t: string): Option<int> {
    var unsigned := AfterSign(t);
    var radix := RadixOf(unsigned);
    var digits := DigitPrefix(AfterPrefix(unsigned), radix);
    if digits == [] then None
    else if IsNegative(t) then Some(-(DigitsValue(digits, radix) as int))
    else Some(DigitsValue(digits, radix))
  }

  /** `parseInt(s)`; None stands for NaN. A result of -0 is the integer 0 here. */
  function ParseInt(s: string): (r: Option<int>)
    ensures TrimStart(s) == [] ==> r == None
    ensures r.Some? && r.value < 0 ==> TrimStart(s) != [] && TrimStart(s)[0] == '-'
  {
    ParseNumeral(TrimStart(s))
  }

  /** `String(n)` for any integer `n`. */
  function IntToString(n: int): (r: string)
    ensures r != [] && (r[0] == '-' <==> n < 0)
  {
    if n < 0 then "-" + NatToString(-n) else NatToString(n)
  }

  lemma {:induction false} DigitPrefixOfDigits(s: string, radix: nat)
    requires forall i :: 0 <= i < |s| ==> IsDigit(s[i], radix)
    ensures DigitPrefix(s, radix) == s
  {
    if s != [] {
      DigitPrefixOfDigits(s[1..], radix);
    }
  }

  lemma {:induction false} NatToStringValue(n: nat)
    ensures DigitsValue(NatToString(n), 10) == n
  {
    if n >= 10 {
      var init := NatToString(n / 10);
      var ds := init + [DigitChar(n % 10)];
      assert ds[..|ds| - 1] == init;
      NatToStringValue(n / 10);
    }
  }

  lemma NegativeNumeral(m: nat)
    requires m > 0
    ensures ParseNumeral("-" + NatToString(m)) == Some(-(m as int))
  {
    var ds := NatToString(m);
    NatToStringValue(m);
    DigitPrefixOfDigits(ds, 10);
    assert ("-" + ds)[1..] == ds;
    assert AfterSign("-" + ds) == ds;
    assert !HasHexPrefix(ds);
  }

  /** parseInt reads back what `String(n)` writes, for every integer. */
  lemma ParseIntRoundTrip(n: int)
    ensures ParseInt(IntToString(n)) == Some(n)
  {
    if n < 0 {
      ParseIntOfNegative(-n);
    } else {
      assert NatToString(n) + [] == NatToString(n);
      ParseIntOfNumericPrefix(n, []);
    }
  }

  lemma ParseIntOfNegative(m: nat)
    requires m > 0
    ensures ParseInt("-" + NatToString(m)) == Some(-(m as int))
  {
    var s := "-" + NatToString(m);
    assert s[0] == '-';
    assert TrimStart(s) == s;
    NegativeNumeral(m);
  }

  /** Appending text that does not begin with a digit of the radix leaves the digit prefix alone. */
  lemma {:induction false} DigitPrefixAppend(p: string, q: string, radix: nat)
    requires q == [] || !IsDigit(q[0], radix)
    ensures DigitPrefix(p + q, radix) == DigitPrefix(p, radix)
  {
    if p == [] {
      assert p + q == q;
    } else {
      assert (p + q)[0] == p[0] && (p + q)[1..] == p[1..] + q;
      DigitPrefixAppend(p[1..], q, radix);
    }
  }

  lemma SignAppend(p: string, q: string)
    requires p != []
    ensures IsNegative(p + q) == IsNegative(p)
    ensures AfterSign(p + q) == AfterSign(p) + q
  {
    assert (p + q)[0] == p[0];
    if p[0] == '-' || p[0] == '+' {
      assert (p + q)[1..] == p[1..] + q;
    }
  }

  lemma RadixAppend(u: string, q: string)
    requires q == [] || IsWhiteSpace(q[0])
    ensures RadixOf(u + q) == RadixOf(u)
    ensures AfterPrefix(u + q) == AfterPrefix(u) + q
  {
    if |u| >= 2 {
      assert (u + q)[0] == u[0] && (u + q)[1] == u[1];
      assert (u + q)[2..] == u[2..] + q;
    } else if |u| == 1 && q != [] {
      assert (u + q)[1] == q[0];
    } else if u == [] {
      assert u + q == q;
    }
  }

  /** Parsing stops at white space: whatever follows it is never read. */
  lemma ParseNumeralStopsAtWhiteSpace(p: string, q: string)
    requires q == [] || IsWhiteSpace(q[0])
    ensures ParseNumeral(p + q) == ParseNumeral(p)
  {
    if p == [] {
      assert p + q == q;
      if q != [] {
        assert AfterSign(q) == q;
        assert !HasHexPrefix(q);
        assert DigitPrefix(q, 10) == [];
      }
    } else {
      SignAppend(p, q);
      var u := AfterSign(p);
      var radix := RadixOf(u);
      RadixAppend(u, q);
      assert q == [] || !IsDigit(q[0], radix);
      DigitPrefixAppend(AfterPrefix(u), q, radix);
      assert DigitPrefix(AfterPrefix(AfterSign(p + q)), RadixOf(AfterSign(p + q)))
          == DigitPrefix(AfterPrefix(u), radix);
    }
  }

  /** parseInt looks only at the first word after the leading white space. */
  lemma ParseIntReadsFirstWord(s: string)
    ensures ParseInt(s) == ParseNumeral(LeadingWord(TrimStart(s)))
  {
    var t := TrimStart(s);
    var w := LeadingWord(t);
    assert t == w + t[|w|..];
    ParseNumeralStopsAtWhiteSpace(w, t[|w|..]);
  }

  /**
   * A numeric prefix is accepted and the rest ignored: `parseInt(String(n) + rest)` is `n`
   * when `rest` does not continue the number (so "12abc" gives 12).
   */
  lemma ParseIntOfNumericPrefix(n: nat, rest: string)
    requires rest == [] || !IsDigit(rest[0], 10)
    requires n == 0 ==> rest == [] || (rest[0] != 'x' && rest[0] != 'X')
    ensures ParseInt(NatToString(n) + rest) == Some(n)
  {
    var ds := NatToString(n);
    var t := ds + rest;
    assert t[0] == ds[0];
    assert TrimStart(t) == t by {
      assert !IsWhiteSpace(t[0]);
    }
    assert AfterSign(t) == t && !IsNegative(t);
    assert !HasHexPrefix(t) by {
      if |ds| == 1 && rest != [] {
        assert t[1] == rest[0];
      } else if |ds| >= 2 {
        assert ds[0] != '0';
      }
    }
    assert DigitPrefix(t, 10) == ds by {
      DigitPrefixAppend(ds, rest, 10);
      DigitPrefixOfDigits(ds, 10);
    }
    NatToStringValue(n);
  }

  /** Leading white space is skipped: parseInt(" 7") is parseInt("7"). */
  lemma {:induction false} ParseIntSkipsLeadingWhiteSpace(blank: string, s: string)
    requires forall i :: 0 <= i < |blank| ==> IsWhiteSpace(blank[i])
    ensures ParseInt(blank + s) == ParseInt(s)
  {
    if blank != [] {
      assert (blank + s)[1..] == blank[1..] + s;
      ParseIntSkipsLeadingWhiteSpace(blank[1..], s);
    } else {
      assert blank + s == s;
    }
  }

  /** White space, then a decimal numeral, then anything that does not continue it: the numeral's value. */
  lemma ParseIntOfPaddedNumber(blank: string, n: nat, rest: string)
    requires forall i :: 0 <= i < |blank| ==> IsWhiteSpace(blank[i])
    requires rest == [] || !IsDigit(rest[0], 10)
    requires n == 0 ==> rest == [] || (rest[0] != 'x' && rest[0] != 'X')
    ensures ParseInt(blank + NatToString(n) + rest) == Some(n)
  {
    assert blank + NatToString(n) + rest == blank + (NatToString(n) + rest);
    ParseIntSkipsLeadingWhiteSpace(blank, NatToString(n) + rest);
    ParseIntOfNumericPrefix(n, rest);
  }

  /** Text whose first non-blank character is neither a sign nor a decimal digit is NaN (so "abc" is NaN). */
  lemma ParseIntWithoutDigits(s: string)
    requires TrimStart(s) != []
    requires TrimStart(s)[0] != '-' && TrimStart(s)[0] != '+' && !IsDigit(TrimStart(s)[0], 10)
    ensures ParseInt(s) == None
  {
    var t := TrimStart(s);
    assert AfterSign(t) == t;
    assert !HasHexPrefix(t);
    assert DigitPrefix(t, 10) == [];
  }

  /** Without a radix argument, "0x" or "0X" followed by hexadecimal digits is read in radix 16. */
  lemma ParseIntOfHexNumeral(x: char, ds: string)
    requires x == 'x' || x == 'X'
    requires ds != [] && forall i :: 0 <= i < |ds| ==> IsDigit(ds[i], 16)
    ensures ParseInt(['0', x] + ds) == Some(DigitsValue(ds, 16))
  {
    var t := ['0', x] + ds;
    assert t[0] == '0' && t[1] == x;
    assert TrimStart(t) == t by {
      assert !IsWhiteSpace(t[0]);
    }
    assert AfterSign(t) == t && !IsNegative(t);
    assert HasHexPrefix(t);
    assert t[2..] == ds;
    DigitPrefixOfDigits(ds, 16);
  }

  /** "1A" in radix 16 is 26. */
  lemma HexDigitsValue()
    ensures DigitsValue("1A", 16) == 26
  {
    assert "1A"[..1] == "1";
    assert DigitsValue("1", 16) == 1;
  }

  /** parseInt("0x1A") is 26. */
  lemma HexDigitsExample()
    ensures ParseInt("0x1A") == Some(26)
  {
    assert IsDigit('1', 16) && IsDigit('A', 16);
    ParseIntOfHexNumeral('x', "1A");
    assert ['0', 'x'] + "1A" == "0x1A";
    HexDigitsValue();
  }
}
