/** Clock times as the screens write and read them: `HH:MM` text produced by
    zero-padding (`padStart(2, '0')`, or `toTimeString().slice(0, 5)`) and read back with
    `split(':').map(Number)`. */
module ClockText {

  /** The value `Number(s)` gives a string: a non-negative integer or NaN. */
  datatype NumberValue = Num(n: nat) | NaN

  predicate IsDigit(c: char) {
    '0' <= c <= '9'
  }

  predicate AllDigits(s: string) {
    forall i :: 0 <= i < |s| ==> IsDigit(s[i])
  }

  function DigitChar(d: nat): (c: char)
    requires d < 10
    ensures IsDigit(c) && c as int - '0' as int == d
  {
    (d + '0' as int) as char
  }

  /** `n.toString()` for a non-negative integer: its decimal digits, most significant first. */
  function DecimalText(n: nat): (s: string)
    ensures 1 <= |s| && AllDigits(s)
  {
    if n < 10 then [DigitChar(n)] else DecimalText(n / 10) + [DigitChar(n % 10)]
  }

  /** The integer a string of decimal digits denotes; the empty string denotes 0, as `Number("")` does. */
  function DigitsValue(s: string): nat
    requires AllDigits(s)
  {
    if s == [] then 0 else DigitsValue(s[..|s| - 1]) * 10 + (s[|s| - 1] as int - '0' as int)
  }

  lemma {:induction false} DigitsOfDecimal(n: nat)
    ensures DigitsValue(DecimalText(n)) == n
  {
    if n >= 10 {
      DigitsOfDecimal(n / 10);
      var s := DecimalText(n / 10) + [DigitChar(n % 10)];
      assert s[..|s| - 1] == DecimalText(n / 10);
    }
  }

  /** A leading zero does not change the value of a digit string. */
  lemma {:induction false} LeadingZero(s: string)
    requires AllDigits(s)
    ensures AllDigits("0" + s) && DigitsValue("0" + s) == DigitsValue(s)
  {
    if s != [] {
      LeadingZero(s[..|s| - 1]);
      assert ("0" + s)[..|s|] == "0" + s[..|s| - 1];
    }
  }

  /** `s.padStart(2, '0')`. */
  function PadStart2(s: string): string {
    if |s| >= 2 then s else if |s| == 1 then "0" + s else "00"
  }

  /** Padding a digit string keeps it a digit string of the same value. */
  lemma PaddedValue(s: string)
    requires AllDigits(s)
    ensures AllDigits(PadStart2(s)) && DigitsValue(PadStart2(s)) == DigitsValue(s)
  {
    if |s| == 1 {
      LeadingZero(s);
    } else if |s| == 0 {
      LeadingZero("");
      LeadingZero("0");
      assert "0" + "0" == "00";
    }
  }

  /** `${hh}:${mm}` with both parts zero-padded to two digits. */
  function Format(hours: nat, minutes: nat): string {
    PadStart2(DecimalText(hours)) + ":" + PadStart2(DecimalText(minutes))
  }

  /** `toTimeString().slice(0, 5)` of an instant given in minutes since a local midnight. */
  function TimeOfDay(instant: nat): string {
    Format(instant / 60 % 24, instant % 60)
  }

  /** `Number(s)` for the strings the model admits: a digit string is its value, anything else NaN. */
  function Number(s: string): NumberValue {
    if AllDigits(s) then Num(DigitsValue(s)) else NaN
  }

  /** `s.split(sep)`: always at least one part, and no part holds the separator. */
  function Split(s: string, sep: char): (parts: seq<string>)
    ensures |parts| >= 1
    ensures forall i :: 0 <= i < |parts| ==> sep !in parts[i]
  {
    if s == [] then [""]
    else if s[0] == sep then [""] + Split(s[1..], sep)
    else
      var rest := Split(s[1..], sep);
      [[s[0]] + rest[0]] + rest[1..]
  }

  lemma {:induction false} SplitWithoutSeparator(s: string, sep: char)
    requires sep !in s
    ensures Split(s, sep) == [s]
  {
    if s != [] {
      SplitWithoutSeparator(s[1..], sep);
      assert s == [s[0]] + s[1..];
    }
  }

  /** Splitting `a + sep + b`, where neither part holds the separator, gives back the two parts. */
  lemma {:induction false} SplitTwoParts(a: string, sep: char, b: string)
    requires sep !in a && sep !in b
    ensures Split(a + [sep] + b, sep) == [a, b]
  {
    if a == [] {
      assert a + [sep] + b == [sep] + b;
      assert ([sep] + b)[1..] == b;
      SplitWithoutSeparator(b, sep);
    } else {
      assert (a + [sep] + b)[1..] == a[1..] + [sep] + b;
      SplitTwoParts(a[1..], sep, b);
      assert a == [a[0]] + a[1..];
    }
  }

  /** `const [h, m] = s.split(':').map(Number)`; a missing second part is `undefined`,
      which compares like NaN. */
  function Parse(s: string): (NumberValue, NumberValue) {
    var parts := Split(s, ':');
    (Number(parts[0]), if |parts| >= 2 then Number(parts[1]) else NaN)
  }

  /** Formatting an hour/minute pair and parsing the text gives the pair back. */
  lemma FormatParseRoundTrip(hours: nat, minutes: nat)
    ensures Parse(Format(hours, minutes)) == (Num(hours), Num(minutes))
  {
    var a, b := PadStart2(DecimalText(hours)), PadStart2(DecimalText(minutes));
    PaddedValue(DecimalText(hours));
    PaddedValue(DecimalText(minutes));
    DigitsOfDecimal(hours);
    DigitsOfDecimal(minutes);
    SplitTwoParts(a, ':', b);
  }
}
