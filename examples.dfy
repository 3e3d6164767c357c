/**
 * Worked cases of the rules the other modules prove in general: cells as the
 * service sheets write them, read by rens_tal.
 */
module Examples {
  import opened Wrappers
  import opened Text
  import opened Numbers
  import opened Intervals

  lemma ValueOf450()
    ensures AllAsciiDigits("450") && Value("450") == 450
  {
    assert "450"[..2] == "45" && "45"[..1] == "4" && "4"[..0] == "";
  }

  lemma ValueOf00()
    ensures AllAsciiDigits("00") && Value("00") == 0
  {
    assert "00"[..1] == "0" && "0"[..0] == "";
  }

  lemma ValueOf75()
    ensures AllAsciiDigits("75") && Value("75") == 75
  {
    assert "75"[..1] == "7" && "7"[..0] == "";
  }

  lemma ValueOf1And250()
    ensures AllAsciiDigits("1") && Value("1") == 1
    ensures AllAsciiDigits("250") && Value("250") == 250
  {
    assert "1"[..0] == "";
    assert "250"[..2] == "25" && "25"[..1] == "2" && "2"[..0] == "";
  }

  lemma Pow10Of3()
    ensures Pow10(2) == 100 && Pow10(3) == 1000
  {
    assert Pow10(1) == 10;
  }

  /** "450,00" reads as 450: the one comma is taken as the decimal point. */
  lemma CommaDecimalExample()
    ensures Clean(Str("450,00")) == 450.0
  {
    var whole: string, frac: string := "450", "00";
    assert whole + [','] + frac == "450,00";
    ValueOf450();
    ValueOf00();
    CleanOfDecimalText(whole, ',', frac);
    assert Value(frac) as real == 0.0;
    var p := Pow10(|frac|) as real;
    assert p == 100.0 by { Pow10Of3(); }
    assert 0.0 / p == 0.0;
  }

  /** "1.250,50" reads as 0: once ',' becomes '.', float() refuses the two points. */
  lemma ThousandsSeparatorExample()
    ensures Clean(Str("1.250,50")) == 0.0
  {
    CleanOfManySeparators("1.250,50");
  }

  /** "1.250" reads as 1.25: a single '.' is always the decimal point, whatever follows it. */
  lemma LonePointExample()
    ensures Clean(Str("1.250")) == 1.25
  {
    assert "1" + ['.'] + "250" == "1.250";
    ValueOf1And250();
    Pow10Of3();
    CleanOfDecimalText("1", '.', "250");
    assert DecimalValue("1", "250") == 1.25;
  }

  /** "-75" reads as 75: the sign is dropped before parsing. */
  lemma SignDroppedExample()
    ensures Clean(Str("-75")) == 75.0
  {
    var digits: string := "75";
    assert [] + ['-'] + digits == "-75" && [] + digits == digits;
    assert !IsNumeric('-');
    CleanIgnoresOtherCharacters([], '-', digits);
    ValueOf75();
    CleanOfDigitText(digits);
  }

  /** A cell without any digit, such as "Se note", reads as 0. */
  lemma NoDigitsExample()
    ensures Clean(Str("Se note")) == 0.0
  {
    NoteHasNoDigits();
    CleanWithoutDigits("Se note");
  }

  lemma NoteHasNoDigits()
    ensures forall i :: 0 <= i < |"Se note"| ==> !IsDigit("Se note"[i])
  {
  }

  /** The interval label "500 timer" reads as 500 operating hours. */
  lemma HourCountExample()
    ensures HourCount("500 timer") == Some(500)
  {
    var name: string := [] + "500" + " timer";
    assert name == "500 timer";
    assert NatText(500) == "500" by {
      assert NatText(5) == "5";
      assert NatText(50) == NatText(5) + "0";
    }
    HourCountOfLabel([], 500, " timer");
  }
}
