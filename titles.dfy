/**
 * Human-readable district titles: English ordinals and the "At Large"
 * special case of district "00".
 */
module Titles {
  import opened Wrappers
  import opened Features
  import opened Decimal

  /** The script's suffix table, indexed by the last digit. */
  const Suffixes: seq<string> := ["th", "st", "nd", "rd", "th", "th", "th", "th", "th", "th"]

  const AtLargeNumber := "00"
  const AtLargeText := "At Large"

  /** The apostrophe of the long title is U+2019. */
  const Apostrophe: char := '\U{2019}'

  /** `ordinal(n)`: `n` followed by a suffix from the table, with 11, 12 and
      13 (modulo 100) taking the table's first entry. */
  function Ordinal(n: nat): (r: string)
    ensures DecimalString(n) <= r && |r| == |DecimalString(n)| + 2
  {
    if n % 100 == 11 || n % 100 == 12 || n % 100 == 13 then DecimalString(n) + Suffixes[0]
    else DecimalString(n) + Suffixes[n % 10]
  }

  /** The English ordinal suffix, stated without the table. */
  function EnglishSuffix(n: nat): string
  {
    if 11 <= n % 100 <= 13 then "th"
    else if n % 10 == 1 then "st"
    else if n % 10 == 2 then "nd"
    else if n % 10 == 3 then "rd"
    else "th"
  }

  /** `ordinal` of what `parseInt` returned. For NaN the table entry is
      `undefined`, and NaN plus `undefined` is a numeric addition whose
      result, NaN, the title then writes as "NaN". */
  function OrdinalText(v: Option<nat>): (r: string)
    ensures v.None? ==> r == NaNText
    ensures v.Some? ==> DecimalString(v.value) < r
  {
    match v
    case Some(n) => Ordinal(n)
    case None => NaNText
  }

  /** `title_short`, e.g. "CA 12" or "AK At Large". */
  function TitleShort(p: Props): string
  {
    p.state + " " + (if p.number == AtLargeNumber then AtLargeText else NumberText(ParseInt(p.number)))
  }

  /** `title_long`, e.g. "California’s 12th Congressional District". */
  function TitleLong(p: Props): string
  {
    p.stateName + [Apostrophe] + "s "
      + (if p.number == AtLargeNumber then AtLargeText else OrdinalText(ParseInt(p.number)))
      + " Congressional District"
  }

  /** The table-driven ordinal is the English rule: 11th, 12th and 13th
      whatever the last digit, otherwise st, nd, rd for 1, 2, 3 and th else. */
  lemma OrdinalIsEnglish(n: nat)
    ensures Ordinal(n) == DecimalString(n) + EnglishSuffix(n)
  {
  }

  /** The number can be read back from its ordinal. */
  lemma OrdinalReadsBack(n: nat)
    ensures ParseInt(Ordinal(n)) == Some(n)
  {
    OrdinalIsEnglish(n);
    ParseDigitsThen(DecimalString(n), EnglishSuffix(n));
    ValueOfDecimalString(n);
  }

  /** A number `parseInt` reads as NaN is titled "NaN" in both titles. */
  lemma NaNTitles(p: Props)
    requires p.number != AtLargeNumber && ParseInt(p.number).None?
    ensures TitleShort(p) == p.state + " " + NaNText
    ensures TitleLong(p) == p.stateName + [Apostrophe] + "s " + NaNText + " Congressional District"
  {
  }

  /** "1st", "2nd", "3rd", "4th". */
  lemma OrdinalSmall()
    ensures Ordinal(1) == "1st" && Ordinal(2) == "2nd" && Ordinal(3) == "3rd" && Ordinal(4) == "4th"
  {
    assert DecimalString(1) == "1" && DecimalString(2) == "2";
    assert DecimalString(3) == "3" && DecimalString(4) == "4";
  }

  /** "11th", "12th", "13th", although their last digits take st, nd, rd. */
  lemma OrdinalTeens()
    ensures Ordinal(11) == "11th" && Ordinal(12) == "12th" && Ordinal(13) == "13th"
  {
    assert DecimalString(1) == "1";
    assert DecimalString(11) == "11";
    assert DecimalString(12) == "12";
    assert DecimalString(13) == "13";
  }

  /** "21st" takes its last digit's suffix again; "111th" is a teen modulo 100. */
  lemma OrdinalPastTwenty()
    ensures Ordinal(21) == "21st" && Ordinal(111) == "111th"
  {
    assert DecimalString(2) == "2" && DecimalString(1) == "1";
    assert DecimalString(21) == "21";
    assert DecimalString(11) == "11";
    assert DecimalString(111) == "111";
  }

  /** An at-large district is titled "At Large" and never gets an ordinal:
      "AK At Large", "Alaska’s At Large Congressional District". */
  lemma AtLargeTitles(p: Props)
    requires p.number == AtLargeNumber
    ensures TitleShort(p) == p.state + " " + AtLargeText
    ensures TitleLong(p) == p.stateName + [Apostrophe] + "s " + AtLargeText + " Congressional District"
  {
  }

  /** A numbered district is titled with the value of the digits `parseInt`
      reads from its number, and the ordinal of that value; anything after
      those digits ("1A" is titled as 1) is ignored. */
  lemma NumberedTitles(p: Props)
    requires p.number != AtLargeNumber && ParseInt(p.number).Some?
    ensures LeadingDigits(p.number) != []
    ensures TitleShort(p) == p.state + " " + DecimalString(Value(LeadingDigits(p.number)))
    ensures TitleLong(p) == p.stateName + [Apostrophe] + "s " + Ordinal(Value(LeadingDigits(p.number))) + " Congressional District"
  {
  }

  /** A district number made of digits only is titled with its unpadded
      value and the ordinal of that value. */
  lemma DigitNumberTitles(p: Props)
    requires p.number != AtLargeNumber && p.number != [] && AllDigits(p.number)
    ensures TitleShort(p) == p.state + " " + DecimalString(Value(p.number))
    ensures TitleLong(p) == p.stateName + [Apostrophe] + "s " + Ordinal(Value(p.number)) + " Congressional District"
  {
    ParseDigitsThen(p.number, []);
    assert p.number + [] == p.number;
  }

  /** A two-digit district number is shown without its leading zero: the
      short title ends in the shortest decimal text of the number's value. */
  lemma TwoDigitTitle(p: Props)
    requires |p.number| == 2 && AllDigits(p.number) && p.number != AtLargeNumber
    ensures var v := 10 * DigitValue(p.number[0]) + DigitValue(p.number[1]);
      0 < v < 100 && TitleShort(p) == p.state + " " + DecimalString(v) &&
      (p.number[0] == '0' ==> TitleShort(p) == p.state + " " + [p.number[1]])
  {
    DigitNumberTitles(p);
    TwoDigitValue(p.number);
  }

  lemma TwoDigitValue(d: string)
    requires |d| == 2 && AllDigits(d) && d != AtLargeNumber
    ensures var v := 10 * DigitValue(d[0]) + DigitValue(d[1]);
      Value(d) == v && 0 < v < 100 && (d[0] == '0' ==> DecimalString(v) == [d[1]])
  {
    assert d[..1][..0] == [];
    assert Value(d[..1]) == DigitValue(d[0]);
    if d[0] == '0' {
      assert d[1] != '0';
      assert DigitChar(DigitValue(d[1])) == d[1];
    }
  }
}
