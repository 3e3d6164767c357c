/**
 * The number cleaner rens_tal (app.py:20-25): every price, quantity and hour
 * count in a sheet goes through it before any arithmetic.
 */
module Numbers {
  import opened Wrappers
  import opened Text

  predicate AllAsciiDigits(s: string) {
    forall i :: 0 <= i < |s| ==> IsAsciiDigit(s[i])
  }

  function DigitValue(c: char): nat
    requires IsAsciiDigit(c)
  {
    c as int - '0' as int
  }

  function DigitChar(d: nat): (c: char)
    requires d < 10
    ensures IsAsciiDigit(c) && DigitValue(c) == d
  {
    ('0' as int + d) as char
  }

  /** The number a string of ASCII digits spells in base ten; leading zeros are allowed. */
  function Value(s: string): nat
    requires AllAsciiDigits(s)
  {
    if s == [] then 0 else Value(s[..|s| - 1]) * 10 + DigitValue(s[|s| - 1])
  }

  function Pow10(n: nat): (r: nat)
    ensures r >= 1
  {
    if n == 0 then 1 else 10 * Pow10(n - 1)
  }

  /** str(n) for a natural number n. */
  function NatText(n: nat): (r: string)
    ensures r != [] && AllAsciiDigits(r)
  {
    if n < 10 then [DigitChar(n)] else NatText(n / 10) + [DigitChar(n % 10)]
  }

  lemma {:induction false} ValueOfNatText(n: nat)
    ensures Value(NatText(n)) == n
  {
    if n >= 10 {
      var s := NatText(n);
      assert s[..|s| - 1] == NatText(n / 10);
      ValueOfNatText(n / 10);
    }
  }

  /** filter(str.isdigit, s): the digits of a label, superscripts included. */
  function DigitsOf(s: string): (r: string)
    ensures forall i :: 0 <= i < |r| ==> IsDigit(r[i])
  {
    if s == [] then []
    else (if IsDigit(s[0]) then [s[0]] else []) + DigitsOf(s[1..])
  }

  /** The filter keeps a character iff it is an isdigit character of the label. */
  lemma {:induction false} DigitsOfKeepsExactly(s: string)
    ensures forall c :: c in DigitsOf(s) <==> c in s && IsDigit(c)
  {
    if s != [] {
      DigitsOfKeepsExactly(s[1..]);
      assert s == [s[0]] + s[1..];
    }
  }

  /** The filter works piece by piece, so the digits keep their order. */
  lemma {:induction false} DigitsOfConcat(a: string, b: string)
    ensures DigitsOf(a + b) == DigitsOf(a) + DigitsOf(b)
  {
    if a != [] {
      assert (a + b)[1..] == a[1..] + b;
      DigitsOfConcat(a[1..], b);
    } else {
      assert a + b == b;
    }
  }

  /** Text without any isdigit character contributes nothing; digits are all kept. */
  lemma {:induction false} DigitsOfPlainText(s: string)
    ensures (forall i :: 0 <= i < |s| ==> !IsDigit(s[i])) ==> DigitsOf(s) == []
    ensures AllAsciiDigits(s) ==> DigitsOf(s) == s
  {
    if s != [] {
      DigitsOfPlainText(s[1..]);
      assert s == [s[0]] + s[1..];
    }
  }

  /**
   * int() applied to a string of isdigit characters: the empty string and the
   * superscript digits are rejected (ValueError), ASCII digits are read in base ten.
   */
  function ParseInt(s: string): (r: Option<nat>)
  {
    if s != [] && AllAsciiDigits(s) then Some(Value(s)) else None
  }

  lemma ParseIntOfNatText(n: nat)
    ensures ParseInt(NatText(n)) == Some(n)
  {
    ValueOfNatText(n);
  }

  /** The characters rens_tal keeps: isdigit characters, ',' and '.'. */
  predicate IsNumeric(c: char) {
    IsDigit(c) || c == ',' || c == '.'
  }

  predicate IsSeparator(c: char) {
    c == ',' || c == '.'
  }

  /** "".join(c for c in s if c.isdigit() or c in ",.") */
  function KeepNumeric(s: string): (r: string)
    ensures forall i :: 0 <= i < |r| ==> IsNumeric(r[i])
  {
    if s == [] then []
    else (if IsNumeric(s[0]) then [s[0]] else []) + KeepNumeric(s[1..])
  }

  /** s.replace(',', '.') */
  function CommaToDot(s: string): (r: string)
    ensures |r| == |s|
    ensures forall i :: 0 <= i < |s| ==> r[i] == if s[i] == ',' then '.' else s[i]
  {
    if s == [] then [] else [if s[0] == ',' then '.' else s[0]] + CommaToDot(s[1..])
  }

  predicate FloatChars(t: string) {
    forall i :: 0 <= i < |t| ==> IsAsciiDigit(t[i]) || t[i] == '.'
  }

  /**
   * float() on a string made only of isdigit characters and '.': at most one
   * '.', at least one digit, and no superscript digit; otherwise ValueError.
   */
  function ParseFloat(t: string): (r: Option<real>)
    ensures r.Some? ==> r.value >= 0.0
  {
    if !FloatChars(t) then None
    else
      var d := Find(t, '.');
      if d == |t| then
        if t == [] then None else Some(Value(t) as real)
      else
        var whole, frac := t[..d], t[d + 1..];
        if Find(frac, '.') < |frac| || (whole == [] && frac == []) then None
        else Some(DecimalValue(whole, frac))
  }

  /** The value of the decimal numeral whole.frac. */
  function DecimalValue(whole: string, frac: string): (r: real)
    requires AllAsciiDigits(whole) && AllAsciiDigits(frac)
    ensures r >= 0.0
  {
    Value(whole) as real + Value(frac) as real / Pow10(|frac|) as real
  }

  /**
   * rens_tal: a missing cell, or text float() cannot read once everything but
   * digits, ',' and '.' is dropped and ',' is turned into '.', gives 0.0.
   */
  function Clean(cell: Cell): (r: real)
    ensures r >= 0.0
  {
    match cell
    case NA => 0.0
    case Str(s) =>
      match ParseFloat(Strip(CommaToDot(KeepNumeric(s))))
      case Some(v) => v
      case None => 0.0
  }

  // ---- What rens_tal reads, and what it reads as 0.0 ----

  function SeparatorCount(s: string): nat {
    if s == [] then 0 else (if IsSeparator(s[0]) then 1 else 0) + SeparatorCount(s[1..])
  }

  function DotCount(s: string): nat {
    if s == [] then 0 else (if s[0] == '.' then 1 else 0) + DotCount(s[1..])
  }

  lemma {:induction false} KeepNumericConcat(a: string, b: string)
    ensures KeepNumeric(a + b) == KeepNumeric(a) + KeepNumeric(b)
  {
    if a != [] {
      assert (a + b)[0] == a[0] && (a + b)[1..] == a[1..] + b;
      KeepNumericConcat(a[1..], b);
    } else {
      assert a + b == b;
    }
  }

  lemma {:induction false} KeepNumericOfNumeric(s: string)
    requires forall i :: 0 <= i < |s| ==> IsNumeric(s[i])
    ensures KeepNumeric(s) == s
  {
    if s != [] {
      KeepNumericOfNumeric(s[1..]);
    }
  }

  /** The filter keeps a character iff it is a digit, ',' or '.'. */
  lemma {:induction false} KeepNumericKeepsExactly(s: string)
    ensures forall c :: c in KeepNumeric(s) <==> c in s && IsNumeric(c)
  {
    if s != [] {
      KeepNumericKeepsExactly(s[1..]);
      assert s == [s[0]] + s[1..];
    }
  }

  lemma {:induction false} KeepNumericKeepsSeparators(s: string)
    ensures SeparatorCount(KeepNumeric(s)) == SeparatorCount(s)
  {
    if s != [] {
      var head := if IsNumeric(s[0]) then [s[0]] else [];
      assert KeepNumeric(s) == head + KeepNumeric(s[1..]);
      SeparatorCountConcat(head, KeepNumeric(s[1..]));
      KeepNumericKeepsSeparators(s[1..]);
    }
  }

  lemma {:induction false} KeepNumericWithoutDigits(s: string)
    requires forall i :: 0 <= i < |s| ==> !IsDigit(s[i])
    ensures forall i :: 0 <= i < |KeepNumeric(s)| ==> IsSeparator(KeepNumeric(s)[i])
  {
    if s != [] {
      KeepNumericWithoutDigits(s[1..]);
    }
  }

  lemma {:induction false} SeparatorCountConcat(a: string, b: string)
    ensures SeparatorCount(a + b) == SeparatorCount(a) + SeparatorCount(b)
  {
    if a != [] {
      assert (a + b)[0] == a[0] && (a + b)[1..] == a[1..] + b;
      SeparatorCountConcat(a[1..], b);
    } else {
      assert a + b == b;
    }
  }

  lemma {:induction false} CommaToDotCountsSeparators(s: string)
    ensures DotCount(CommaToDot(s)) == SeparatorCount(s)
  {
    if s != [] {
      assert CommaToDot(s)[1..] == CommaToDot(s[1..]);
      CommaToDotCountsSeparators(s[1..]);
    }
  }

  /** The first '.' of t is followed by every other '.' of t. */
  lemma {:induction false} FindFirstDot(t: string)
    requires DotCount(t) >= 1
    ensures Find(t, '.') < |t|
    ensures DotCount(t[Find(t, '.') + 1..]) == DotCount(t) - 1
  {
    if t[0] != '.' {
      FindFirstDot(t[1..]);
      assert t[Find(t, '.') + 1..] == t[1..][Find(t[1..], '.') + 1..];
    }
  }

  /** float() refuses text with two or more '.'. */
  lemma ParseFloatOfManyDots(t: string)
    requires DotCount(t) >= 2
    ensures ParseFloat(t) == None
  {
    FindFirstDot(t);
    var frac := t[Find(t, '.') + 1..];
    FindFirstDot(frac);
  }

  /** pd.isna(val): a missing cell reads as 0.0. */
  lemma CleanOfMissing()
    ensures Clean(NA) == 0.0
  {
  }

  /**
   * Text with two or more separators among ',' and '.' reads as 0.0: there is
   * no thousands-separator rule, so "1.250,50" becomes "1.250.50", which
   * float() refuses.
   */
  lemma CleanOfManySeparators(s: string)
    requires SeparatorCount(s) >= 2
    ensures Clean(Str(s)) == 0.0
  {
    var t := CommaToDot(KeepNumeric(s));
    KeepNumericKeepsSeparators(s);
    CommaToDotCountsSeparators(KeepNumeric(s));
    StripOfFiltered(s);
    ParseFloatOfManyDots(t);
  }

  /** Text with no digit at all ("", "kr.", "-", ",") reads as 0.0. */
  lemma CleanWithoutDigits(s: string)
    requires forall i :: 0 <= i < |s| ==> !IsDigit(s[i])
    ensures Clean(Str(s)) == 0.0
  {
    var t := CommaToDot(KeepNumeric(s));
    KeepNumericWithoutDigits(s);
    assert forall i :: 0 <= i < |t| ==> t[i] == '.';
    StripOfFiltered(s);
    if t != [] {
      assert Find(t, '.') == 0;
      var frac := t[1..];
      assert frac != [] ==> Find(frac, '.') == 0;
    }
  }

  /** A character other than a digit, ',' or '.' (a sign, a letter, a space) changes nothing. */
  lemma CleanIgnoresOtherCharacters(a: string, c: char, b: string)
    requires !IsNumeric(c)
    ensures Clean(Str(a + [c] + b)) == Clean(Str(a + b))
  {
    KeepNumericConcat(a + [c], b);
    KeepNumericConcat(a, [c]);
    KeepNumericConcat(a, b);
    assert KeepNumeric([c]) == [];
    assert KeepNumeric(a + [c]) == KeepNumeric(a);
    assert KeepNumeric(a + [c] + b) == KeepNumeric(a + b);
  }

  lemma CleanOfDigitText(w: string)
    requires AllAsciiDigits(w) && w != []
    ensures Clean(Str(w)) == Value(w) as real
  {
    KeepNumericOfNumeric(w);
    assert CommaToDot(w) == w;
    assert FloatChars(w);
    FloatCharsAreNotSpace(w);
    NoFind(w, '.');
  }

  /** A whole number written in plain digits is read back exactly: "500" is 500. */
  lemma CleanReadsWholeNumber(n: nat)
    ensures Clean(Str(NatText(n))) == n as real
  {
    CleanOfDigitText(NatText(n));
    ValueOfNatText(n);
  }

  lemma ParseFloatOfDecimal(whole: string, frac: string)
    requires AllAsciiDigits(whole) && AllAsciiDigits(frac) && whole != []
    ensures ParseFloat(whole + "." + frac) == Some(DecimalValue(whole, frac))
  {
    var t := whole + "." + frac;
    assert FloatChars(t);
    FindAfter(whole, '.', frac);
    var d := Find(t, '.');
    assert d == |whole| < |t|;
    assert t[..d] == whole;
    assert t[d + 1..] == frac;
    NoFind(frac, '.');
  }

  lemma NoFind(s: string, c: char)
    requires forall j :: 0 <= j < |s| ==> s[j] != c
    ensures Find(s, c) == |s|
  {
  }

  /** The filtered text has no whitespace left, so .strip() leaves it alone. */
  lemma StripOfFiltered(s: string)
    ensures Strip(CommaToDot(KeepNumeric(s))) == CommaToDot(KeepNumeric(s))
  {
    var k := KeepNumeric(s);
    var t := CommaToDot(k);
    forall i | 0 <= i < |t|
      ensures !IsSpace(t[i])
    {
      assert IsNumeric(k[i]);
    }
    StripWithoutSpace(t);
  }

  lemma FloatCharsAreNotSpace(t: string)
    requires FloatChars(t)
    ensures Strip(t) == t
  {
    assert forall i :: 0 <= i < |t| ==> !IsSpace(t[i]);
    StripWithoutSpace(t);
  }

  /** In p + [c] + q, where p has no c, the first c is the one after p. */
  lemma FindAfter(p: string, c: char, q: string)
    requires forall j :: 0 <= j < |p| ==> p[j] != c
    ensures Find(p + [c] + q, c) == |p|
  {
    var t := p + [c] + q;
    var r := Find(t, c);
    assert t[|p|] == c;
  }

  lemma CommaToDotOfDecimal(whole: string, sep: char, frac: string)
    requires AllAsciiDigits(whole) && IsSeparator(sep) && AllAsciiDigits(frac)
    ensures CommaToDot(whole + [sep] + frac) == whole + "." + frac
  {
    var s, t := whole + [sep] + frac, whole + "." + frac;
    forall i | 0 <= i < |t|
      ensures CommaToDot(s)[i] == t[i]
    {
      if i < |whole| {
        assert s[i] == whole[i] == t[i];
      } else if i > |whole| {
        assert s[i] == frac[i - |whole| - 1] == t[i];
      }
    }
  }

  lemma CleanOfDecimalText(whole: string, sep: char, frac: string)
    requires AllAsciiDigits(whole) && whole != [] && IsSeparator(sep) && AllAsciiDigits(frac)
    ensures Clean(Str(whole + [sep] + frac)) == DecimalValue(whole, frac)
  {
    var s := whole + [sep] + frac;
    var t := whole + "." + frac;
    assert forall i :: 0 <= i < |s| ==> IsNumeric(s[i]);
    KeepNumericOfNumeric(s);
    CommaToDotOfDecimal(whole, sep, frac);
    assert FloatChars(t);
    FloatCharsAreNotSpace(t);
    ParseFloatOfDecimal(whole, frac);
  }

  /**
   * Digits with one separator, ',' or '.', are read as a decimal: "450,00" is
   * 450 and "1250.5" is 1250.5.
   */
  lemma CleanReadsDecimal(n: nat, sep: char, frac: string)
    requires IsSeparator(sep) && AllAsciiDigits(frac)
    ensures Clean(Str(NatText(n) + [sep] + frac)) == n as real + Value(frac) as real / Pow10(|frac|) as real
  {
    CleanOfDecimalText(NatText(n), sep, frac);
    ValueOfNatText(n);
  }
}
