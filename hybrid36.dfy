/** Hybrid-36 numbering (`number_to_hybrid36_number`, pdbCorrection.py:9-39): a fixed-width field
    holds a decimal number while it fits, then continues with base-36 numerals whose first digit
    is an upper-case letter, then with the same numerals in lower case. */
module Hybrid36 {
  import opened Wrappers
  import opened Dicts
  import opened Radix
  import opened PyStr

  /** `"0123456789ABCDEFGHIJKLMNOPQRSTUVWXYZ"`. */
  const DigitsUpper: string := Decimal + CharRange('A', 26)
  /** `digits_upper.lower()`, that is `"0123456789abcdefghijklmnopqrstuvwxyz"`. */
  const DigitsLower: string := Decimal + CharRange('a', 26)

  lemma DigitsLiterals()
    ensures DigitsUpper == "0123456789ABCDEFGHIJKLMNOPQRSTUVWXYZ"
    ensures DigitsLower == "0123456789abcdefghijklmnopqrstuvwxyz"
  {
  }

  /** Size of each of the two base-36 blocks: the numerals of `width` digits whose first digit is
      one of the 26 letters. */
  function Block(width: nat): nat
    requires width >= 1
  {
    26 * Pow(36, width - 1)
  }

  /** The smallest encodable number: the most negative one whose decimal form fits. */
  function Lowest(width: nat): int
    requires width >= 1
  {
    1 - Pow(10, width - 1)
  }

  /** One past the largest encodable number. */
  function Limit(width: nat): int
    requires width >= 1
  {
    Pow(10, width) + 2 * Block(width)
  }

  function NumberToHybrid36(number: int, width: nat): (r: Result<string>)
    requires width >= 1
    ensures r.Err? ==> r.error == ValueError
  {
    if number >= Lowest(width) then
      if number < Pow(10, width) then Ok(RJust(IntToString(number), width, ' '))
      else
        var above := number - Pow(10, width);
        if above < Block(width) then Ok(Encode(DigitsUpper, above + 10 * Pow(36, width - 1)))
        else
          var aboveUpper := above - Block(width);
          if aboveUpper < Block(width) then
            Ok(Encode(DigitsLower, aboveUpper + 10 * Pow(36, width - 1)))
          else Err(ValueError)
    else Err(ValueError)
  }

  /** The reading of a hybrid-36 field: a leading letter selects the base-36 block, anything else
      is read as a decimal number by Python's `int`. */
  function Hybrid36ToNumber(s: string, width: nat): Option<int>
    requires width >= 1
  {
    if s != [] && 'A' <= s[0] <= 'Z' then
      if AllIn(s, DigitsUpper) then
        Some(UpperNumber(Decode(DigitsUpper, s), width))
      else None
    else if s != [] && 'a' <= s[0] <= 'z' then
      if AllIn(s, DigitsLower) then
        Some(LowerNumber(Decode(DigitsLower, s), width))
      else None
    else ParseInt(s)
  }

  /** The number an upper-case numeral of value `v` stands for. */
  function UpperNumber(v: nat, width: nat): int
    requires width >= 1
  {
    v - 10 * Pow(36, width - 1) + Pow(10, width)
  }

  /** The number a lower-case numeral of value `v` stands for. */
  function LowerNumber(v: nat, width: nat): int
    requires width >= 1
  {
    UpperNumber(v, width) + Block(width)
  }

  predicate AllIn(s: string, digits: string) {
    forall k :: 0 <= k < |s| ==> s[k] in digits
  }

  /** The encoding succeeds exactly on `[1 - 10^(w-1), 10^w + 2 * 26 * 36^(w-1))`. */
  lemma Hybrid36Defined(number: int, width: nat)
    requires width >= 1
    ensures NumberToHybrid36(number, width).Ok? <==> Lowest(width) <= number < Limit(width)
  {
  }

  /** Numbers whose decimal form fits are written in decimal, right-justified. */
  lemma Hybrid36Decimal(number: int, width: nat)
    requires width >= 1 && Lowest(width) <= number < Pow(10, width)
    ensures NumberToHybrid36(number, width) == Ok(RJust(IntToString(number), width, ' '))
    ensures |RJust(IntToString(number), width, ' ')| == width
  {
    DecimalFits(number, width);
  }

  lemma DecimalFits(number: int, width: nat)
    requires width >= 1 && Lowest(width) <= number < Pow(10, width)
    ensures |IntToString(number)| <= width
  {
    if number < 0 {
      NegativeFits(number, width);
    } else {
      NatFits(number, width);
      assert IntToString(number) == NatToString(number);
    }
  }

  lemma NegativeFits(number: int, width: nat)
    requires width >= 1 && Lowest(width) <= number < 0
    ensures |IntToString(number)| <= width
  {
    assert Pow(10, 0) == 1;
    var m: nat := -number;
    NatFits(m, width - 1);
    assert IntToString(number) == "-" + NatToString(m);
  }

  /** `str(m)` has at most `w` characters below `10^w`. */
  lemma NatFits(m: nat, w: nat)
    requires w >= 1 && m < Pow(10, w)
    ensures |NatToString(m)| <= w
  {
    EncodeLengthAtMost(Decimal, m, w);
  }

  /** The first base-36 block: `width` upper-case base-36 digits, the first a letter. */
  lemma Hybrid36Upper(number: int, width: nat)
    requires width >= 1 && Pow(10, width) <= number < Pow(10, width) + Block(width)
    ensures NumberToHybrid36(number, width).Ok?
    ensures var s := NumberToHybrid36(number, width).value;
      |s| == width && 'A' <= s[0] <= 'Z' && AllIn(s, DigitsUpper)
  {
    UpperEncoding(number, width);
    UpperNumeral(UpperValue(number, width), width);
  }

  lemma UpperNumeral(v: nat, width: nat)
    requires width >= 1 && 10 * Pow(36, width - 1) <= v < 36 * Pow(36, width - 1)
    ensures var s := Encode(DigitsUpper, v);
      |s| == width && 'A' <= s[0] <= 'Z' && AllIn(s, DigitsUpper)
  {
    LetterBlock(DigitsUpper, v, width);
    EncodeInDigits(DigitsUpper, v);
    UpperLetters(v / Pow(36, width - 1));
  }

  /** The base-36 value written for a number in the first block. */
  lemma UpperEncoding(number: int, width: nat)
    requires width >= 1 && Pow(10, width) <= number < Pow(10, width) + Block(width)
    ensures NumberToHybrid36(number, width) == Ok(Encode(DigitsUpper, UpperValue(number, width)))
  {
  }

  function UpperValue(number: int, width: nat): (v: nat)
    requires width >= 1 && Pow(10, width) <= number < Pow(10, width) + Block(width)
    ensures 10 * Pow(36, width - 1) <= v < 36 * Pow(36, width - 1)
  {
    number - Pow(10, width) + 10 * Pow(36, width - 1)
  }

  /** The base-36 value written for a number in the second block. */
  lemma LowerEncoding(number: int, width: nat)
    requires width >= 1 && Pow(10, width) + Block(width) <= number < Limit(width)
    ensures NumberToHybrid36(number, width) == Ok(Encode(DigitsLower, LowerValue(number, width)))
  {
  }

  function LowerValue(number: int, width: nat): (v: nat)
    requires width >= 1 && Pow(10, width) + Block(width) <= number < Limit(width)
    ensures 10 * Pow(36, width - 1) <= v < 36 * Pow(36, width - 1)
  {
    number - Pow(10, width) - Block(width) + 10 * Pow(36, width - 1)
  }

  /** The second base-36 block: the same numerals in lower case. */
  lemma Hybrid36Lower(number: int, width: nat)
    requires width >= 1 && Pow(10, width) + Block(width) <= number < Limit(width)
    ensures NumberToHybrid36(number, width).Ok?
    ensures var s := NumberToHybrid36(number, width).value;
      |s| == width && 'a' <= s[0] <= 'z' && AllIn(s, DigitsLower)
  {
    LowerEncoding(number, width);
    LowerNumeral(LowerValue(number, width), width);
  }

  lemma LowerNumeral(v: nat, width: nat)
    requires width >= 1 && 10 * Pow(36, width - 1) <= v < 36 * Pow(36, width - 1)
    ensures var s := Encode(DigitsLower, v);
      |s| == width && 'a' <= s[0] <= 'z' && AllIn(s, DigitsLower)
  {
    LetterBlock(DigitsLower, v, width);
    EncodeInDigits(DigitsLower, v);
    LowerLetters(v / Pow(36, width - 1));
  }

  lemma UpperLetters(k: nat)
    requires 10 <= k < 36
    ensures 'A' <= DigitsUpper[k] <= 'Z'
  {
  }

  lemma LowerLetters(k: nat)
    requires 10 <= k < 36
    ensures 'a' <= DigitsLower[k] <= 'z'
  {
  }

  /** A value in `[10 * 36^(w-1), 36^w)` has `w` base-36 digits and a leading digit from 10 on. */
  lemma LetterBlock(digits: string, v: int, width: nat)
    requires |digits| == 36 && width >= 1
    requires 10 * Pow(36, width - 1) <= v < 36 * Pow(36, width - 1)
    ensures v >= 0 && |Encode(digits, v)| == width
    ensures 10 <= v / Pow(36, width - 1) < 36
    ensures Encode(digits, v)[0] == digits[v / Pow(36, width - 1)]
  {
    var p := Pow(36, width - 1);
    assert Pow(36, width) == 36 * p;
    EncodeLength(digits, v, width);
    DivBounds(v, p, 10);
  }

  /** Every encoding has exactly `width` characters. */
  lemma Hybrid36Width(number: int, width: nat)
    requires width >= 1 && NumberToHybrid36(number, width).Ok?
    ensures |NumberToHybrid36(number, width).value| == width
  {
    if number < Pow(10, width) {
      Hybrid36Decimal(number, width);
    } else if number < Pow(10, width) + Block(width) {
      Hybrid36Upper(number, width);
    } else {
      Hybrid36Lower(number, width);
    }
  }

  /** Every encoded number reads back as itself. */
  lemma Hybrid36RoundTrip(number: int, width: nat)
    requires width >= 1 && NumberToHybrid36(number, width).Ok?
    ensures Hybrid36ToNumber(NumberToHybrid36(number, width).value, width) == Some(number)
  {
    if number < Pow(10, width) {
      DecimalRoundTrip(number, width);
    } else if number < Pow(10, width) + Block(width) {
      UpperEncoding(number, width);
      UpperRoundTrip(number, width);
    } else {
      LowerEncoding(number, width);
      LowerRoundTrip(number, width);
    }
  }

  lemma UpperRoundTrip(number: int, width: nat)
    requires width >= 1 && Pow(10, width) <= number < Pow(10, width) + Block(width)
    ensures Hybrid36ToNumber(Encode(DigitsUpper, UpperValue(number, width)), width) == Some(number)
  {
    var v := UpperValue(number, width);
    ReadUpper(v, width);
    assert UpperNumber(v, width) == number;
  }

  /** An upper-case numeral of `width` digits reads back as the number it stands for. */
  lemma ReadUpper(v: nat, width: nat)
    requires width >= 1 && 10 * Pow(36, width - 1) <= v < 36 * Pow(36, width - 1)
    ensures Hybrid36ToNumber(Encode(DigitsUpper, v), width) == Some(UpperNumber(v, width))
  {
    UpperNumeral(v, width);
    UpperDecodeEncode(v);
  }

  /** A lower-case numeral of `width` digits reads back as the number it stands for. */
  lemma ReadLower(v: nat, width: nat)
    requires width >= 1 && 10 * Pow(36, width - 1) <= v < 36 * Pow(36, width - 1)
    ensures Hybrid36ToNumber(Encode(DigitsLower, v), width) == Some(LowerNumber(v, width))
  {
    LowerNumeral(v, width);
    LowerDecodeEncode(v);
  }

  lemma LowerRoundTrip(number: int, width: nat)
    requires width >= 1 && Pow(10, width) + Block(width) <= number < Limit(width)
    ensures Hybrid36ToNumber(Encode(DigitsLower, LowerValue(number, width)), width) == Some(number)
  {
    var v := LowerValue(number, width);
    ReadLower(v, width);
    assert LowerNumber(v, width) == number;
  }

  lemma DecimalRoundTrip(number: int, width: nat)
    requires width >= 1 && Lowest(width) <= number < Pow(10, width)
    ensures Hybrid36ToNumber(RJust(IntToString(number), width, ' '), width) == Some(number)
  {
    var d := IntToString(number);
    var s := RJust(d, width, ' ');
    DecimalFits(number, width);
    assert s[|s| - |d|..] == d;
    assert s[0] == ' ' || s[0] == d[0];
    ParseIntToString(number, width);
  }

  lemma UpperDecodeEncode(v: nat)
    ensures Decode(DigitsUpper, Encode(DigitsUpper, v)) == v
  {
    UpperNoDup();
    DecodeEncode(DigitsUpper, v);
  }

  lemma UpperNoDup()
    ensures NoDup(DigitsUpper)
  {
    IncreasingNoDup(DigitsUpper);
  }

  lemma LowerDecodeEncode(v: nat)
    ensures Decode(DigitsLower, Encode(DigitsLower, v)) == v
  {
    LowerNoDup();
    DecodeEncode(DigitsLower, v);
  }

  lemma LowerNoDup()
    ensures NoDup(DigitsLower)
  {
    IncreasingNoDup(DigitsLower);
  }
}
