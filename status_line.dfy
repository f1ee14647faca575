/**
  The status line that the tick handler sends once per period: the clock's
  hours, minutes and seconds as two ASCII digits each, separated by ':' and
  ended by a line feed and a carriage return (in that order).
*/
module StatusLine {
  import opened Bytes

  /** The part of the real-time clock's time record that the firmware reads. */
  datatype Time = Time(hours: nat, minutes: nat, seconds: nat)

  /** Every field fits in two decimal digits. */
  predicate TwoDigitFields(t: Time) {
    t.hours < 100 && t.minutes < 100 && t.seconds < 100
  }

  /** A time of day a clock can show: 00:00:00 .. 23:59:59. */
  predicate ClockTime(t: Time) {
    t.hours <= 23 && t.minutes <= 59 && t.seconds <= 59
  }

  /** Tens digit of a field, as `x / 10 + '0'` sent as one frame. */
  function TensDigit(x: nat): (b: byte)
    ensures x < 100 ==> IsDigit(b) && DigitValue(b) == x / 10
  {
    Frame(x / 10 + Zero as nat)
  }

  /** Units digit of a field, as `x % 10 + '0'` sent as one frame. */
  function UnitsDigit(x: nat): (b: byte)
    ensures IsDigit(b) && DigitValue(b) == x % 10
  {
    Frame(x % 10 + Zero as nat)
  }

  /** Reads two ASCII digit bytes back as `(hi - '0') * 10 + (lo - '0')`. */
  function DecodeTwoDigits(hi: byte, lo: byte): (x: int)
    ensures IsDigit(hi) && IsDigit(lo) ==> 0 <= x < 100
  {
    DigitValue(hi) * 10 + DigitValue(lo)
  }

  /** The ten bytes the tick handler transmits for a clock reading. */
  function FormatTime(t: Time): (line: seq<byte>)
    ensures |line| == 10
    ensures line[2] == Colon && line[5] == Colon
    ensures line[8] == LF && line[9] == CR
  {
    [TensDigit(t.hours), UnitsDigit(t.hours), Colon,
     TensDigit(t.minutes), UnitsDigit(t.minutes), Colon,
     TensDigit(t.seconds), UnitsDigit(t.seconds), LF, CR]
  }

  /** The shape of a status line: digits, ':' at 2 and 5, then LF CR. */
  predicate WellFormedLine(line: seq<byte>) {
    |line| == 10 &&
    IsDigit(line[0]) && IsDigit(line[1]) && line[2] == Colon &&
    IsDigit(line[3]) && IsDigit(line[4]) && line[5] == Colon &&
    IsDigit(line[6]) && IsDigit(line[7]) && line[8] == LF && line[9] == CR
  }

  /** The result of reading a line back: a time, or nothing for a malformed line. */
  datatype Option = None | Some(value: Time)

  /** A receiver's reading of a status line: the inverse of FormatTime. */
  function ParseTime(line: seq<byte>): (r: Option)
    ensures r.Some? <==> WellFormedLine(line)
    ensures r.Some? ==> TwoDigitFields(r.value)
  {
    if WellFormedLine(line) then
      Some(Time(DecodeTwoDigits(line[0], line[1]),
                DecodeTwoDigits(line[3], line[4]),
                DecodeTwoDigits(line[6], line[7])))
    else
      None
  }

  /** Each two-digit field survives the digit encoding. */
  lemma TwoDigitsRoundTrip(x: nat)
    requires x < 100
    ensures DecodeTwoDigits(TensDigit(x), UnitsDigit(x)) == x
  {
  }

  /** Any two digit bytes are the encoding of the value they decode to. */
  lemma TwoDigitsEncodeDecoded(hi: byte, lo: byte)
    requires IsDigit(hi) && IsDigit(lo)
    ensures var x := DecodeTwoDigits(hi, lo);
      x >= 0 && TensDigit(x) == hi && UnitsDigit(x) == lo
  {
    var x := DecodeTwoDigits(hi, lo);
    assert x / 10 == DigitValue(hi) && x % 10 == DigitValue(lo);
  }

  /** Every time with two-digit fields formats to a well-formed line. */
  lemma FormatTimeWellFormed(t: Time)
    requires TwoDigitFields(t)
    ensures WellFormedLine(FormatTime(t))
  {
  }

  /** Formatting then parsing gives back the clock reading. */
  lemma ParseFormatTime(t: Time)
    requires TwoDigitFields(t)
    ensures ParseTime(FormatTime(t)) == Some(t)
  {
    FormatTimeWellFormed(t);
    TwoDigitsRoundTrip(t.hours);
    TwoDigitsRoundTrip(t.minutes);
    TwoDigitsRoundTrip(t.seconds);
  }

  /** A line parses to a time exactly when the handler would send that line for it. */
  lemma ParseTimeInverse(line: seq<byte>, t: Time)
    ensures ParseTime(line) == Some(t) <==> TwoDigitFields(t) && FormatTime(t) == line
  {
    if ParseTime(line) == Some(t) {
      TwoDigitsEncodeDecoded(line[0], line[1]);
      TwoDigitsEncodeDecoded(line[3], line[4]);
      TwoDigitsEncodeDecoded(line[6], line[7]);
      assert FormatTime(t) == line;
    }
    if TwoDigitFields(t) && FormatTime(t) == line {
      ParseFormatTime(t);
    }
  }

  /** Distinct two-digit times give distinct status lines. */
  lemma FormatTimeInjective(t1: Time, t2: Time)
    requires TwoDigitFields(t1) && TwoDigitFields(t2)
    requires FormatTime(t1) == FormatTime(t2)
    ensures t1 == t2
  {
    ParseFormatTime(t1);
    ParseFormatTime(t2);
  }

  /**
    For a time of day every digit byte is in '0'..'9', the tens digit of
    the hours is at most '2' and those of minutes and seconds at most '5'.
  */
  lemma ClockTimeDigits(t: Time)
    requires ClockTime(t)
    ensures var line := FormatTime(t);
      (forall i | i in {0, 1, 3, 4, 6, 7} :: IsDigit(line[i])) &&
      line[0] <= Zero + 2 && line[3] <= Zero + 5 && line[6] <= Zero + 5
  {
    FormatTimeWellFormed(t);
  }
}
