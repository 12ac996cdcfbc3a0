/** Character classes and number syntax shared by the cleaning steps: ASCII digits,
    the word characters of Python's regular expressions, decimal text and its value. */
module Lexical {
  import opened Basics

  predicate IsDigit(c: char)
  {
    '0' <= c <= '9'
  }

  function DigitValue(c: char): (v: nat)
    requires IsDigit(c)
    ensures v < 10
  {
    c as int - '0' as int
  }

  function DigitChar(v: nat): (c: char)
    requires v < 10
    ensures IsDigit(c) && DigitValue(c) == v
  {
    ('0' as int + v) as char
  }

  predicate AllDigits(s: string)
  {
    forall i :: 0 <= i < |s| ==> IsDigit(s[i])
  }

  /** The number written by a string of decimal digits, most significant first. */
  function DigitsValue(s: string): nat
    requires AllDigits(s)
    decreases |s|
  {
    if s == [] then 0 else 10 * DigitsValue(s[..|s| - 1]) + DigitValue(s[|s| - 1])
  }

  function Pow10(k: nat): (p: nat)
    ensures p >= 1
  {
    if k == 0 then 1 else 10 * Pow10(k - 1)
  }

  /** `n` written in exactly `width` digits, with leading zeros (strftime's %d, %m and %Y). */
  function PadLeft(n: nat, width: nat): (s: string)
    requires n < Pow10(width)
    ensures |s| == width && AllDigits(s) && DigitsValue(s) == n
    decreases width
  {
    if width == 0 then ""
    else
      var p := PadLeft(n / 10, width - 1);
      var s := p + [DigitChar(n % 10)];
      assert s[..|s| - 1] == p;
      s
  }

  /** `n` in decimal without leading zeros, as Python's str() writes an integer. */
  function NatText(n: nat): (s: string)
    ensures |s| >= 1 && AllDigits(s) && DigitsValue(s) == n
    decreases n
  {
    if n < 10 then [DigitChar(n)]
    else
      var p := NatText(n / 10);
      var s := p + [DigitChar(n % 10)];
      assert s[..|s| - 1] == p;
      s
  }

  /** A string of k digits writes a number below 10^k. */
  lemma {:induction false} DigitsValueBound(s: string)
    requires AllDigits(s)
    ensures DigitsValue(s) < Pow10(|s|)
    decreases |s|
  {
    if s != [] {
      DigitsValueBound(s[..|s| - 1]);
    }
  }

  /** Digit text is determined by its value and its length: padding the value back
      to the same width gives the text again. */
  lemma {:induction false} PadLeftOfDigits(s: string)
    requires AllDigits(s)
    ensures DigitsValue(s) < Pow10(|s|) && PadLeft(DigitsValue(s), |s|) == s
    decreases |s|
  {
    DigitsValueBound(s);
    if s != [] {
      var n := |s| - 1;
      var p := s[..n];
      PadLeftOfDigits(p);
      var v := DigitsValue(s);
      assert v == 10 * DigitsValue(p) + DigitValue(s[n]);
      assert v / 10 == DigitsValue(p) && v % 10 == DigitValue(s[n]);
      assert DigitChar(DigitValue(s[n])) == s[n];
      assert s == p + [s[n]];
    }
  }

  /** The value of two digit characters. */
  lemma TwoDigitsValue(a: char, b: char)
    requires IsDigit(a) && IsDigit(b)
    ensures DigitsValue([a, b]) == 10 * DigitValue(a) + DigitValue(b)
  {
    assert [a, b][..1] == [a];
    assert [a][..0] == [];
    assert DigitsValue([a]) == DigitValue(a);
  }

  /** The value of four digit characters. */
  lemma FourDigitsValue(a: char, b: char, c: char, d: char)
    requires IsDigit(a) && IsDigit(b) && IsDigit(c) && IsDigit(d)
    ensures DigitsValue([a, b, c, d])
         == 1000 * DigitValue(a) + 100 * DigitValue(b) + 10 * DigitValue(c) + DigitValue(d)
  {
    assert [a, b, c, d][..3] == [a, b, c];
    assert [a, b, c][..2] == [a, b];
    assert [a, b][..1] == [a];
    assert [a][..0] == [];
    assert DigitsValue([a]) == DigitValue(a);
    assert DigitsValue([a, b]) == 10 * DigitValue(a) + DigitValue(b);
    assert DigitsValue([a, b, c]) == 100 * DigitValue(a) + 10 * DigitValue(b) + DigitValue(c);
  }

  /** Python's `\w` for str patterns over the first 256 code points: ASCII letters, digits and
      underscore, and the Latin-1 letters, superscript digits and vulgar fractions. */
  predicate IsWordChar(c: char)
  {
    || ('a' <= c <= 'z') || ('A' <= c <= 'Z') || IsDigit(c) || c == '_'
    || c == '\U{AA}' || c == '\U{B2}' || c == '\U{B3}' || c == '\U{B5}'
    || c == '\U{B9}' || c == '\U{BA}' || ('\U{BC}' <= c <= '\U{BE}')
    || ('\U{C0}' <= c <= '\U{FF}' && c != '\U{D7}' && c != '\U{F7}')
  }

  /** Position of the first `c` in `s`, or |s| when `c` does not occur. */
  function IndexOf(s: string, c: char): (k: nat)
    ensures k <= |s|
    ensures k < |s| ==> s[k] == c
    ensures forall j :: 0 <= j < k ==> s[j] != c
    decreases |s|
  {
    if s == [] then 0 else if s[0] == c then 0 else 1 + IndexOf(s[1..], c)
  }

  /** pandas' `str.replace(",", ".")`: every comma becomes a dot. */
  function ReplaceComma(s: string): (r: string)
    ensures |r| == |s|
    decreases |s|
  {
    if s == [] then ""
    else
      var c := s[|s| - 1];
      ReplaceComma(s[..|s| - 1]) + [if c == ',' then '.' else c]
  }

  /** Each character is replaced on its own: a comma by a dot, anything else by itself. */
  lemma {:induction false} ReplaceCommaAt(s: string, i: nat)
    requires i < |s|
    ensures ReplaceComma(s)[i] == if s[i] == ',' then '.' else s[i]
    decreases |s|
  {
    if i < |s| - 1 {
      ReplaceCommaAt(s[..|s| - 1], i);
    }
  }

  /** Replacing commas distributes over concatenation. */
  lemma {:induction false} ReplaceCommaAppend(a: string, b: string)
    ensures ReplaceComma(a + b) == ReplaceComma(a) + ReplaceComma(b)
    decreases |b|
  {
    if b == [] {
      assert a + b == a;
    } else {
      var n := |b| - 1;
      ReplaceCommaAppend(a, b[..n]);
      assert (a + b)[..|a + b| - 1] == a + b[..n];
    }
  }

  /** Text without commas is left as it is. */
  lemma {:induction false} ReplaceCommaNoComma(s: string)
    requires forall i :: 0 <= i < |s| ==> s[i] != ','
    ensures ReplaceComma(s) == s
    decreases |s|
  {
    if s != [] {
      ReplaceCommaNoComma(s[..|s| - 1]);
      assert s == s[..|s| - 1] + [s[|s| - 1]];
    }
  }

  /** The decimal comma between two comma-free parts becomes a dot. */
  lemma ReplaceDecimalComma(a: string, b: string)
    requires forall i :: 0 <= i < |a| ==> a[i] != ','
    requires forall i :: 0 <= i < |b| ==> b[i] != ','
    ensures ReplaceComma(a + "," + b) == a + "." + b
  {
    ReplaceCommaNoComma(a);
    ReplaceCommaNoComma(b);
    ReplaceCommaAppend(a + ",", b);
    ReplaceCommaAppend(a, ",");
    assert ReplaceComma(",") == ReplaceComma([]) + ".";
  }

  /** Python's `float()` on text made only of digits and dots ("12", "12.5", "12." or ".5"):
      the text must hold at least one digit and at most one dot; anything else raises.
      The value is exact. */
  function ParseDecimal(s: string): (r: Option<real>)
    ensures r.Some? ==> r.value >= 0.0
  {
    var k := IndexOf(s, '.');
    var whole := s[..k];
    var fraction := if k < |s| then s[k + 1..] else "";
    if AllDigits(whole) && AllDigits(fraction) && |whole| + |fraction| > 0 then
      Some(DecimalValue(whole, fraction))
    else None
  }

  /** The value of decimal text with the given digits before and after the dot. */
  function DecimalValue(whole: string, fraction: string): (v: real)
    requires AllDigits(whole) && AllDigits(fraction)
    ensures v >= 0.0
  {
    DigitsValue(whole) as real + DigitsValue(fraction) as real / Pow10(|fraction|) as real
  }

  /** Decimal syntax stated character by character. */
  predicate DecimalSyntax(s: string)
  {
    && (forall i :: 0 <= i < |s| ==> IsDigit(s[i]) || s[i] == '.')
    && (forall i, j :: 0 <= i < j < |s| && s[i] == '.' ==> s[j] != '.')
    && (exists i :: 0 <= i < |s| && IsDigit(s[i]))
  }

  /** The parser accepts exactly the decimal syntax: digits and dots only, at most one dot,
      at least one digit. */
  lemma ParseDecimalAccepts(s: string)
    ensures ParseDecimal(s).Some? <==> DecimalSyntax(s)
  {
    var k := IndexOf(s, '.');
    var whole := s[..k];
    var fraction := if k < |s| then s[k + 1..] else "";
    if ParseDecimal(s).Some? {
      forall i | 0 <= i < |s| && i != k ensures IsDigit(s[i]) {
        if i < k { assert s[i] == whole[i]; }
        else { assert s[i] == fraction[i - k - 1]; }
      }
      assert forall i, j :: 0 <= i < j < |s| && s[i] == '.' ==> s[j] != '.';
      if |whole| > 0 {
        assert IsDigit(s[0]) && s[0] == whole[0];
      } else {
        assert IsDigit(s[k + 1]) && s[k + 1] == fraction[0];
      }
    }
    if DecimalSyntax(s) {
      assert AllDigits(whole) by {
        forall i | 0 <= i < |whole| ensures IsDigit(whole[i]) {
          assert whole[i] == s[i];
        }
      }
      assert AllDigits(fraction) by {
        forall i | 0 <= i < |fraction| ensures IsDigit(fraction[i]) {
          assert fraction[i] == s[k + 1 + i];
        }
      }
      var d :| 0 <= d < |s| && IsDigit(s[d]);
      if d < k { assert whole[d] == s[d]; } else { assert fraction[d - k - 1] == s[d]; }
    }
  }

  /** In a string of digits there is no dot. */
  lemma IndexOfAbsent(s: string, c: char)
    requires forall i :: 0 <= i < |s| ==> s[i] != c
    ensures IndexOf(s, c) == |s|
  {
  }

  /** The first `c` after a prefix that does not contain it is right after the prefix. */
  lemma IndexOfAfter(a: string, c: char, b: string)
    requires forall i :: 0 <= i < |a| ==> a[i] != c
    ensures IndexOf(a + [c] + b, c) == |a|
  {
    var s := a + [c] + b;
    var k := IndexOf(s, c);
    assert s[|a|] == c;
    assert forall j :: 0 <= j < |a| ==> s[j] == a[j];
  }

  /** Without fraction digits the value is the whole part. */
  lemma DecimalValueWhole(whole: string)
    requires AllDigits(whole)
    ensures DecimalValue(whole, "") == DigitsValue(whole) as real
  {
    assert DigitsValue("") == 0;
  }

  /** Digits alone are read as the number they write. */
  lemma ParseDigits(s: string)
    requires |s| > 0 && AllDigits(s)
    ensures ParseDecimal(s) == Some(DigitsValue(s) as real)
  {
    assert ParseDecimal(s) == Some(DecimalValue(s, "")) by {
      assert forall i :: 0 <= i < |s| ==> IsDigit(s[i]);
      IndexOfAbsent(s, '.');
      assert s[..|s|] == s;
    }
    DecimalValueWhole(s);
  }

  /** Digits, a dot and digits are read as the whole part plus the fraction. */
  lemma ParseDecimalParts(a: string, b: string)
    requires AllDigits(a) && AllDigits(b) && |a| + |b| > 0
    ensures ParseDecimal(a + "." + b) == Some(DecimalValue(a, b))
  {
    var s := a + "." + b;
    IndexOfAfter(a, '.', b);
    assert s[..|a|] == a;
    assert s[|a| + 1..] == b;
  }

  /** With two fraction digits the fraction counts hundredths. */
  lemma DecimalValueCents(whole: string, cents: string)
    requires AllDigits(whole) && AllDigits(cents) && |cents| == 2
    ensures DecimalValue(whole, cents) == DigitsValue(whole) as real + DigitsValue(cents) as real / 100.0
  {
    assert Pow10(|cents|) == 100;
  }

  /** "whole.cc" is read as whole + cc/100, whatever digits the two parts hold. */
  lemma ParseCentsText(text: string, whole: string, cents: string)
    requires AllDigits(whole) && AllDigits(cents) && |cents| == 2
    requires text == whole + "." + cents
    ensures ParseDecimal(text) == Some(DigitsValue(whole) as real + DigitsValue(cents) as real / 100.0)
  {
    ParseDecimalParts(whole, cents);
    DecimalValueCents(whole, cents);
  }

  /** pandas' `to_numeric` on one text value: an optional sign, then decimal text. */
  function ParseNumber(s: string): (r: Option<real>)
    ensures r.Some? && r.value < 0.0 ==> |s| > 0 && s[0] == '-'
  {
    if |s| > 0 && (s[0] == '-' || s[0] == '+') then
      match ParseDecimal(s[1..])
      case None => None
      case Some(v) => Some(if s[0] == '-' then -v else v)
    else ParseDecimal(s)
  }

  /** A leading minus sign negates what the rest of the text is read as. */
  lemma ParseNegated(u: string, w: string)
    requires w == "-" + u
    ensures ParseNumber(w) == if ParseDecimal(u).Some? then Some(-ParseDecimal(u).value) else None
  {
    assert w[1..] == u;
  }

  /** A comma-free prefix is kept by the comma replacement. */
  lemma ReplaceCommaAfterSign(text: string, w: string)
    requires w == "-" + text
    ensures ReplaceComma(w) == "-" + ReplaceComma(text)
  {
    ReplaceCommaAppend("-", text);
    assert ReplaceComma("-") == ReplaceComma([]) + "-";
  }

  /** Python's str() of an integer. */
  function IntText(i: int): string
  {
    if i < 0 then "-" + NatText(-i) else NatText(i)
  }

  /** Every integer written by Python is read back by `to_numeric` as that integer. */
  lemma ParseNumberOfInt(i: int, text: string)
    requires text == IntText(i)
    ensures ParseNumber(text) == Some(i as real)
  {
    if i < 0 {
      var u := NatText(-i);
      ParseDigits(u);
      ParseNegated(u, text);
    } else {
      ParseDigits(text);
      UnsignedNumber(text);
    }
  }

  /** Text that does not start with a sign is read as plain decimal text. */
  lemma UnsignedNumber(s: string)
    requires |s| > 0 && s[0] != '-' && s[0] != '+'
    ensures ParseNumber(s) == ParseDecimal(s)
  {
  }

  /** Text holding two dots is never a number, whatever else it holds. */
  lemma TwoDotsRejected(s: string, i: nat, j: nat)
    requires i < j < |s| && s[i] == '.' && s[j] == '.'
    ensures ParseDecimal(s) == None
  {
    ParseDecimalAccepts(s);
  }
}
