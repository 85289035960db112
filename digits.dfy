/** Turning a scraped price or area string into a number: the expression
    `parseInt(s.replace(/[^\d]/g, ''))` of the fetch-listings function.
    The regular expression deletes every character that is not a digit, so
    `parseInt` only ever sees a (possibly empty) string of ASCII digits. */
module Digits {

  /** JavaScript's `\d`: the ASCII digits '0' to '9' and nothing else. */
  predicate IsDigit(c: char) {
    '0' <= c <= '9'
  }

  predicate IsDigitString(s: string) {
    forall i :: 0 <= i < |s| ==> IsDigit(s[i])
  }

  predicate HasNoDigit(s: string) {
    forall i :: 0 <= i < |s| ==> !IsDigit(s[i])
  }

  /** What `parseInt` returns on a string of digits: NaN, or a non-negative integer.
      No sign can survive the stripping, so the value is a natural number. */
  datatype Num = NaN | Int(value: nat)

  /** `s.replace(/[^\d]/g, '')`: the digits of `s`, in order. */
  function StripNonDigits(s: string): (r: string)
    ensures IsDigitString(r)
    ensures |r| <= |s|
  {
    if s == [] then []
    else (if IsDigit(s[0]) then [s[0]] else []) + StripNonDigits(s[1..])
  }

  /** Nothing but non-digits is deleted: every digit occurs in the stripped string as
      often as in the input. */
  lemma {:induction false} StripKeepsEveryDigit(s: string, c: char)
    requires IsDigit(c)
    ensures multiset(StripNonDigits(s))[c] == multiset(s)[c]
  {
    if s != [] {
      StripKeepsEveryDigit(s[1..], c);
      assert s == [s[0]] + s[1..];
      assert multiset(s) == multiset([s[0]]) + multiset(s[1..]);
    }
  }

  /** Stripping works piece by piece: the digits of `a + b` are the digits of `a`
      followed by the digits of `b`. With StripKeepsDigitString and the fact that a
      single non-digit strips to nothing, this pins StripNonDigits down. */
  lemma {:induction false} StripConcat(a: string, b: string)
    ensures StripNonDigits(a + b) == StripNonDigits(a) + StripNonDigits(b)
  {
    if a == [] {
      assert a + b == b;
    } else {
      var head := if IsDigit(a[0]) then [a[0]] else [];
      assert (a + b)[0] == a[0];
      assert (a + b)[1..] == a[1..] + b;
      StripConcat(a[1..], b);
      calc {
        StripNonDigits(a + b);
        head + StripNonDigits(a[1..] + b);
        head + (StripNonDigits(a[1..]) + StripNonDigits(b));
        (head + StripNonDigits(a[1..])) + StripNonDigits(b);
      }
    }
  }

  /** A string that is already all digits is left unchanged. */
  lemma {:induction false} StripKeepsDigitString(s: string)
    requires IsDigitString(s)
    ensures StripNonDigits(s) == s
  {
    if s != [] {
      StripKeepsDigitString(s[1..]);
      assert [s[0]] + s[1..] == s;
    }
  }

  /** Stripping twice is stripping once. */
  lemma StripIdempotent(s: string)
    ensures StripNonDigits(StripNonDigits(s)) == StripNonDigits(s)
  {
    StripKeepsDigitString(StripNonDigits(s));
  }

  /** The stripped string is empty exactly when the input holds no digit at all. */
  lemma {:induction false} StripEmptyIffNoDigit(s: string)
    ensures StripNonDigits(s) == [] <==> HasNoDigit(s)
  {
    if s != [] {
      StripEmptyIffNoDigit(s[1..]);
      if HasNoDigit(s[1..]) && !IsDigit(s[0]) {
        forall i | 0 <= i < |s| ensures !IsDigit(s[i]) {
          if i > 0 { assert s[i] == s[1..][i - 1]; }
        }
      }
      if HasNoDigit(s) {
        forall i | 0 <= i < |s[1..]| ensures !IsDigit(s[1..][i]) {
          assert s[1..][i] == s[i + 1];
        }
      }
    }
  }

  function DigitValue(c: char): (d: nat)
    requires IsDigit(c)
    ensures d < 10
  {
    c as int - '0' as int
  }

  function DigitChar(k: nat): (c: char)
    requires k < 10
    ensures IsDigit(c) && DigitValue(c) == k
  {
    ('0' as int + k) as char
  }

  function Pow10(n: nat): (p: nat)
    ensures p >= 1
  {
    if n == 0 then 1 else 10 * Pow10(n - 1)
  }

  /** The base-10 value of a digit string, most significant digit first. */
  function DecimalValue(d: string): (v: nat)
    requires IsDigitString(d)
    ensures v < Pow10(|d|)
  {
    if d == [] then 0
    else
      var v := DecimalValue(d[..|d| - 1]);
      assert v <= Pow10(|d| - 1) - 1;
      v * 10 + DigitValue(d[|d| - 1])
  }

  lemma DigitStringConcat(a: string, b: string)
    requires IsDigitString(a) && IsDigitString(b)
    ensures IsDigitString(a + b)
  {
    forall i | 0 <= i < |a + b| ensures IsDigit((a + b)[i]) {
      if i < |a| { assert (a + b)[i] == a[i]; } else { assert (a + b)[i] == b[i - |a|]; }
    }
  }

  lemma ShiftStep(x: nat, p: nat, y: nat, z: nat)
    ensures (x * p + y) * 10 + z == x * (10 * p) + (y * 10 + z)
  {
  }

  /** Reading `a + b` is reading `a`, shifting it by the length of `b`, and adding `b`. */
  lemma {:induction false} DecimalValueConcat(a: string, b: string)
    requires IsDigitString(a) && IsDigitString(b)
    ensures IsDigitString(a + b)
    ensures DecimalValue(a + b) == DecimalValue(a) * Pow10(|b|) + DecimalValue(b)
  {
    DigitStringConcat(a, b);
    if b == [] {
      assert a + b == a;
    } else {
      var b' := b[..|b| - 1];
      var last := b[|b| - 1];
      assert (a + b)[..|a + b| - 1] == a + b';
      assert (a + b)[|a + b| - 1] == last;
      DecimalValueConcat(a, b');
      assert DecimalValue(a + b) == DecimalValue(a + b') * 10 + DigitValue(last);
      assert DecimalValue(b) == DecimalValue(b') * 10 + DigitValue(last);
      ShiftStep(DecimalValue(a), Pow10(|b'|), DecimalValue(b'), DigitValue(last));
    }
  }

  /** `parseInt` ignores leading zeros: "0045" reads as 45. */
  lemma LeadingZeroIgnored(d: string)
    requires IsDigitString(d)
    ensures IsDigitString("0" + d)
    ensures DecimalValue("0" + d) == DecimalValue(d)
  {
    DecimalValueConcat("0", d);
  }

  /** A digit string that does not start with '0' is at least 10^(length-1). */
  lemma {:induction false} DecimalValueLowerBound(d: string)
    requires IsDigitString(d) && |d| >= 1 && d[0] != '0'
    ensures DecimalValue(d) >= Pow10(|d| - 1)
  {
    if |d| > 1 {
      var d' := d[..|d| - 1];
      assert d'[0] == d[0];
      DecimalValueLowerBound(d');
    }
  }

  /** The decimal spelling of `n` that `String(n)` produces: no leading zero. */
  function Decimal(n: nat): (s: string)
    ensures IsDigitString(s) && |s| >= 1
    ensures s[0] != '0' || |s| == 1
  {
    if n < 10 then [DigitChar(n)]
    else Decimal(n / 10) + [DigitChar(n % 10)]
  }

  /** Reading back a printed number gives the number. */
  lemma {:induction false} DecimalRoundTrip(n: nat)
    ensures DecimalValue(Decimal(n)) == n
  {
    if n >= 10 {
      var s := Decimal(n);
      assert s[..|s| - 1] == Decimal(n / 10);
      DecimalRoundTrip(n / 10);
    }
  }

  /** Printing a digit string's value gives the string back, when it has no leading zero. */
  lemma {:induction false} DecimalOfValue(d: string)
    requires IsDigitString(d) && |d| >= 1 && (d[0] != '0' || |d| == 1)
    ensures Decimal(DecimalValue(d)) == d
  {
    var v := DecimalValue(d);
    if |d| == 1 {
      assert d[..0] == [];
      assert d == [DigitChar(v)];
    } else {
      var d' := d[..|d| - 1];
      assert d'[0] == d[0];
      DecimalValueLowerBound(d);
      assert Pow10(|d| - 1) >= 10 by { assert Pow10(|d| - 1) == 10 * Pow10(|d| - 2); }
      assert v / 10 == DecimalValue(d') && v % 10 == DigitValue(d[|d| - 1]);
      DecimalOfValue(d');
      assert d == d' + [d[|d| - 1]];
    }
  }

  /** `parseInt(t)` for a string of digits only: NaN when `t` is empty, otherwise its
      decimal value (leading zeros included). */
  function ParseDigits(t: string): (r: Num)
    requires IsDigitString(t)
    ensures r.NaN? <==> t == []
    ensures r.Int? ==> r.value < Pow10(|t|)
  {
    if t == [] then NaN else Int(DecimalValue(t))
  }

  /** `parseInt(s.replace(/[^\d]/g, ''))`: NaN exactly when `s` holds no digit. */
  function ParseNumber(s: string): (r: Num)
    ensures r.NaN? <==> HasNoDigit(s)
  {
    StripEmptyIffNoDigit(s);
    ParseDigits(StripNonDigits(s))
  }

  /** The parsed value is the decimal value of the digits of `s`, read in order:
      whatever is glued between, before or after the digits does not matter. */
  lemma ParseNumberConcat(a: string, b: string)
    requires !HasNoDigit(a) && !HasNoDigit(b)
    ensures ParseNumber(a + b) == Int(ParseNumber(a).value * Pow10(|StripNonDigits(b)|) + ParseNumber(b).value)
  {
    StripConcat(a, b);
    StripEmptyIffNoDigit(a);
    StripEmptyIffNoDigit(b);
    DecimalValueConcat(StripNonDigits(a), StripNonDigits(b));
  }

  /** A printed number, with any digit-free decoration around it, parses back to itself. */
  lemma ParseNumberOfDecimal(n: nat, prefix: string, suffix: string)
    requires HasNoDigit(prefix) && HasNoDigit(suffix)
    ensures ParseNumber(prefix + Decimal(n) + suffix) == Int(n)
  {
    var s := Decimal(n);
    StripConcat(prefix, s);
    StripConcat(prefix + s, suffix);
    StripEmptyIffNoDigit(prefix);
    StripEmptyIffNoDigit(suffix);
    StripKeepsDigitString(s);
    assert StripNonDigits(prefix + s + suffix) == s;
    DecimalRoundTrip(n);
  }

  /** Appending a digit-free piece leaves the digits unchanged. */
  lemma StripAppendNoDigit(a: string, b: string)
    requires HasNoDigit(b)
    ensures StripNonDigits(a + b) == StripNonDigits(a)
  {
    StripConcat(a, b);
    StripEmptyIffNoDigit(b);
  }

  /** Appending a digit string appends it to the digits. */
  lemma StripAppendDigits(a: string, b: string)
    requires IsDigitString(b)
    ensures StripNonDigits(a + b) == StripNonDigits(a) + b
  {
    StripConcat(a, b);
    StripKeepsDigitString(b);
  }

  lemma PriceDigits()
    ensures StripNonDigits("250 000 €") == "250000"
  {
    var p, q, r, t := "250", " ", "000", " €";
    StripAppendDigits([], p);
    StripAppendNoDigit(p, q);
    StripAppendDigits(p + q, r);
    StripAppendNoDigit(p + q + r, t);
    assert [] + p == p;
    assert p + q + r + t == "250 000 €";
    assert p + r == "250000";
  }

  lemma PriceValue()
    ensures IsDigitString("250000") && DecimalValue("250000") == 250000
  {
    var p, r := "250", "000";
    assert DecimalValue(p) == 250 by {
      DecimalValueConcat("25", "0");
      DecimalValueConcat("2", "5");
      assert "25" + "0" == p && "2" + "5" == "25";
    }
    assert DecimalValue(r) == 0 by {
      LeadingZeroIgnored("00");
      LeadingZeroIgnored("0");
      assert "0" + "00" == r && "0" + "0" == "00";
    }
    DecimalValueConcat(p, r);
    assert Pow10(3) == 1000;
    assert p + r == "250000";
  }

  /** A price as a listing site prints it: the thousands separator and the currency
      sign are deleted. */
  lemma PriceExample()
    ensures ParseNumber("250 000 €") == Int(250000)
  {
    PriceDigits();
    PriceValue();
  }

  /** An area with a decimal comma and the unit "m²": the comma is deleted, so the
      value is read as 455, and '²' is not an ASCII digit. */
  lemma AreaDigits()
    ensures StripNonDigits("45,5 m²") == "455"
  {
    var p, q, r, t := "45", ",", "5", " m²";
    StripAppendDigits([], p);
    StripAppendNoDigit(p, q);
    StripAppendDigits(p + q, r);
    StripAppendNoDigit(p + q + r, t);
    assert [] + p == p;
    assert p + q + r + t == "45,5 m²";
    assert p + r == "455";
  }

  lemma AreaExample()
    ensures ParseNumber("45,5 m²") == Int(455)
  {
    AreaDigits();
    DecimalValueConcat("45", "5");
    assert "45" + "5" == "455";
  }

  /** A field with no digit at all parses to NaN. */
  lemma NoDigitExample()
    ensures ParseNumber("m²") == NaN
    ensures ParseNumber("") == NaN
  {
  }
}
