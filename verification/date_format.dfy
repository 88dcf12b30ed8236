/** Timestamp formatting (src/utils/date.ts). The local-time getters of a
    JavaScript `Date` become the integer fields of a `Clock`. */
module DateFormat {
  import opened Wrappers
  import opened Text

  /** What the `Date` getters return: `month` is `getMonth()`, counted from 0. */
  datatype Clock = Clock(year: int, month: nat, day: nat, hours: nat, minutes: nat, seconds: nat)

  /** The fields a real date of a four-digit year has. */
  predicate InRange(t: Clock) {
    && 1000 <= t.year <= 9999
    && t.month < 12
    && 1 <= t.day <= 31
    && t.hours < 24
    && t.minutes < 60
    && t.seconds < 60
  }

  /** `String(n).padStart(2, '0')`: one leading zero on a single digit,
      longer numbers as they are. */
  function Pad2(n: nat): (r: string)
    ensures forall i :: 0 <= i < |r| ==> IsDigit(r[i])
    ensures n < 100 <==> |r| == 2
  {
    var s := NatToString(n);
    NatToStringLength(n);
    NatToStringAtLeastThree(n);
    if |s| < 2 then "0" + s else s
  }

  /** Reading the padded digits back gives the number; from 10 on nothing
      is added to the decimal notation. */
  lemma Pad2Value(n: nat)
    ensures DigitsValue(Pad2(n)) == n
    ensures n >= 10 ==> Pad2(n) == NatToString(n)
  {
    var s := NatToString(n);
    NatToStringRoundTrip(n);
    NatToStringLength(n);
    if n < 10 {
      assert Pad2(n) == ['0', s[0]];
      assert DigitsValue(['0']) == 0;
      assert Pad2(n)[..1] == ['0'];
    }
  }

  /** Numbers of three digits or more are printed with three or more. */
  lemma {:induction false} NatToStringAtLeastThree(n: nat)
    ensures n >= 100 ==> |NatToString(n)| >= 3
  {
    if n >= 100 {
      NatToStringLength(n / 10);
      NatToStringAtLeastThree(n / 10);
    }
  }

  /** The three strings `getDateTimeFormats` returns. */
  datatype Formats = Formats(date: string, time: string, datetime: string)

  /** `dateStr`: the year, then the month counted from 1 and the day, both
      padded. */
  function DateStamp(t: Clock): (r: string)
    ensures InRange(t) ==> |r| == 8
  {
    NatToStringLength(if t.year >= 0 then t.year else 0);
    IntToString(t.year) + Pad2(t.month + 1) + Pad2(t.day)
  }

  /** `timeStr`: hours, minutes and seconds, each padded. */
  function TimeStamp(t: Clock): (r: string)
    ensures InRange(t) ==> |r| == 6
  {
    Pad2(t.hours) + Pad2(t.minutes) + Pad2(t.seconds)
  }

  /** `getDateTimeFormats`: `YYYYMMDD`, `HHMMSS` and the two joined by a
      hyphen. */
  function DateTimeFormats(t: Clock): (r: Formats)
    ensures r.datetime == r.date + "-" + r.time
    ensures InRange(t) ==> |r.date| == 8 && |r.time| == 6 && |r.datetime| == 15
  {
    var date := DateStamp(t);
    var time := TimeStamp(t);
    Formats(date, time, date + "-" + time)
  }

  /** `dateTime`: `YYYY-MM-DD HH:MM`. */
  function DateTime(t: Clock): (r: string)
    ensures InRange(t) ==> |r| == 16 && r[4] == '-' && r[7] == '-' && r[10] == ' ' && r[13] == ':'
  {
    NatToStringLength(if t.year >= 0 then t.year else 0);
    IntToString(t.year) + "-" + Pad2(t.month + 1) + "-" + Pad2(t.day) + " " + Pad2(t.hours) + ":" + Pad2(t.minutes)
  }

  /** Reads a `YYYYMMDD-HHMMSS` stamp back into a clock; `None` for any
      other shape or a month of 0. */
  function ReadStamp(s: string): (r: Option<Clock>)
    ensures r.Some? ==> |s| == 15 && s[8] == '-'
  {
    if |s| == 15 && s[8] == '-' && AllDigits(s[..8]) && AllDigits(s[9..]) then
      var month := DigitsValue(s[4..6]);
      if month == 0 then None
      else Some(Clock(DigitsValue(s[..4]), month - 1, DigitsValue(s[6..8]),
                      DigitsValue(s[9..11]), DigitsValue(s[11..13]), DigitsValue(s[13..])))
    else None
  }

  predicate AllDigits(s: string) {
    forall i :: 0 <= i < |s| ==> IsDigit(s[i])
  }

  /** A four-digit year prints as its four digits. */
  lemma YearDigits(year: int)
    requires 1000 <= year <= 9999
    ensures |IntToString(year)| == 4 && AllDigits(IntToString(year))
    ensures DigitsValue(IntToString(year)) == year
  {
    NatToStringLength(year);
    NatToStringRoundTrip(year);
  }

  /** Where the parts of a stamp sit. */
  lemma StampSlices(y: string, mo: string, d: string, h: string, mi: string, sec: string)
    requires |y| == 4 && |mo| == 2 && |d| == 2 && |h| == 2 && |mi| == 2 && |sec| == 2
    ensures var s := y + mo + d + "-" + (h + mi + sec);
      && |s| == 15 && s[8] == '-'
      && s[..8] == y + mo + d && s[9..] == h + mi + sec
      && s[..4] == y && s[4..6] == mo && s[6..8] == d
      && s[9..11] == h && s[11..13] == mi && s[13..] == sec
  {
    var s := y + mo + d + "-" + (h + mi + sec);
    assert s[..8] == y + mo + d;
    assert s[9..] == h + mi + sec;
  }

  /** Every stamp of a real date reads back as the clock it came from. */
  lemma StampRoundTrip(t: Clock)
    requires InRange(t)
    ensures ReadStamp(DateTimeFormats(t).datetime) == Some(t)
  {
    var y, mo, d := IntToString(t.year), Pad2(t.month + 1), Pad2(t.day);
    var h, mi, sec := Pad2(t.hours), Pad2(t.minutes), Pad2(t.seconds);
    YearDigits(t.year);
    var s := DateTimeFormats(t).datetime;
    assert s == y + mo + d + "-" + (h + mi + sec);
    StampSlices(y, mo, d, h, mi, sec);
    assert AllDigits(s[..8]) by {
      DigitsAppend(y, mo);
      DigitsAppend(y + mo, d);
    }
    assert AllDigits(s[9..]) by {
      DigitsAppend(h, mi);
      DigitsAppend(h + mi, sec);
    }
    Pad2Value(t.month + 1);
    Pad2Value(t.day);
    Pad2Value(t.hours);
    Pad2Value(t.minutes);
    Pad2Value(t.seconds);
    assert DigitsValue(s[4..6]) == t.month + 1;
    assert DigitsValue(s[..4]) == t.year && DigitsValue(s[6..8]) == t.day;
    assert DigitsValue(s[9..11]) == t.hours && DigitsValue(s[11..13]) == t.minutes;
    assert DigitsValue(s[13..]) == t.seconds;
  }

  lemma DigitsAppend(a: string, b: string)
    requires AllDigits(a) && AllDigits(b)
    ensures AllDigits(a + b)
  {
    assert forall i :: 0 <= i < |a + b| ==> (a + b)[i] == if i < |a| then a[i] else b[i - |a|];
  }

  /** `dateTime` shows the same date and the same hour and minute as the
      file-name stamps, with separators put in. */
  lemma DateTimeAgreesWithFormats(t: Clock)
    requires InRange(t)
    ensures var s := DateTime(t); var f := DateTimeFormats(t);
      && s[..4] + s[5..7] + s[8..10] == f.date
      && s[11..13] + s[14..] == f.time[..4]
  {
    var y, mo, d := IntToString(t.year), Pad2(t.month + 1), Pad2(t.day);
    var h, mi := Pad2(t.hours), Pad2(t.minutes);
    YearDigits(t.year);
    var s := DateTime(t);
    assert s == y + "-" + mo + "-" + d + " " + h + ":" + mi;
    assert s[..4] == y && s[5..7] == mo && s[8..10] == d;
    assert s[11..13] == h && s[14..] == mi;
    assert DateTimeFormats(t).time[..4] == h + mi;
  }

  /** The two characters of a padded number below 100. */
  lemma Pad2Digits(n: nat)
    requires n < 100
    ensures Pad2(n) == [DigitChar(n / 10), DigitChar(n % 10)]
  {
    Pad2Value(n);
    if n >= 10 {
      assert NatToString(n / 10) == [DigitChar(n / 10)];
    }
  }

  /** The four characters of a four-digit year. */
  lemma YearChars(year: int)
    requires 1000 <= year <= 9999
    ensures IntToString(year)
      == [DigitChar(year / 1000), DigitChar(year / 100 % 10), DigitChar(year / 10 % 10), DigitChar(year % 10)]
  {
    assert year / 10 / 10 == year / 100 && year / 100 / 10 == year / 1000;
    assert NatToString(year / 1000) == [DigitChar(year / 1000)];
    assert NatToString(year / 100) == [DigitChar(year / 1000), DigitChar(year / 100 % 10)];
    assert NatToString(year / 10) == NatToString(year / 100) + [DigitChar(year / 10 % 10)];
    assert NatToString(year) == NatToString(year / 10) + [DigitChar(year % 10)];
  }

  /** The eight characters of the date stamp of a real date. */
  lemma DateChars(t: Clock)
    requires InRange(t)
    ensures DateTimeFormats(t).date == [
      DigitChar(t.year / 1000), DigitChar(t.year / 100 % 10), DigitChar(t.year / 10 % 10), DigitChar(t.year % 10),
      DigitChar((t.month + 1) / 10), DigitChar((t.month + 1) % 10), DigitChar(t.day / 10), DigitChar(t.day % 10)]
  {
    YearChars(t.year);
    Pad2Digits(t.month + 1);
    Pad2Digits(t.day);
  }

  /** The six characters of the time stamp of a real time. */
  lemma TimeChars(t: Clock)
    requires InRange(t)
    ensures DateTimeFormats(t).time == [
      DigitChar(t.hours / 10), DigitChar(t.hours % 10), DigitChar(t.minutes / 10), DigitChar(t.minutes % 10),
      DigitChar(t.seconds / 10), DigitChar(t.seconds % 10)]
  {
    Pad2Digits(t.hours);
    Pad2Digits(t.minutes);
    Pad2Digits(t.seconds);
  }

  /** The sixteen characters of `dateTime` for a real date. */
  lemma DateTimeChars(t: Clock)
    requires InRange(t)
    ensures DateTime(t) == [
      DigitChar(t.year / 1000), DigitChar(t.year / 100 % 10), DigitChar(t.year / 10 % 10), DigitChar(t.year % 10), '-',
      DigitChar((t.month + 1) / 10), DigitChar((t.month + 1) % 10), '-', DigitChar(t.day / 10), DigitChar(t.day % 10), ' ',
      DigitChar(t.hours / 10), DigitChar(t.hours % 10), ':', DigitChar(t.minutes / 10), DigitChar(t.minutes % 10)]
  {
    YearChars(t.year);
    Pad2Digits(t.month + 1);
    Pad2Digits(t.day);
    Pad2Digits(t.hours);
    Pad2Digits(t.minutes);
  }

  /** Any moment of 17 January 2026 has the date stamp `20260117`. */
  lemma ExampleDate(t: Clock)
    requires InRange(t) && t.year == 2026 && t.month == 0 && t.day == 17
    ensures DateTimeFormats(t).date == "20260117"
  {
    DateChars(t);
    assert DigitChar(t.year / 1000) == '2' && DigitChar(t.year / 100 % 10) == '0';
    assert DigitChar(t.year / 10 % 10) == '2' && DigitChar(t.year % 10) == '6';
  }

  /** Any day at 14:30:25 has the time stamp `143025`. */
  lemma ExampleTime(t: Clock)
    requires InRange(t) && t.hours == 14 && t.minutes == 30 && t.seconds == 25
    ensures DateTimeFormats(t).time == "143025"
  {
    TimeChars(t);
  }

  /** 17 January 2026 at 14:30:25 has the stamp `20260117-143025`. */
  lemma ExampleStamp(t: Clock)
    requires t == Clock(2026, 0, 17, 14, 30, 25)
    ensures DateTimeFormats(t).datetime == "20260117-143025"
  {
    ExampleDate(t);
    ExampleTime(t);
  }

  /** Any moment of 15 March 2024 in the minute 14:30 shows as
      `2024-03-15 14:30`. */
  lemma ExampleDateTime(t: Clock)
    requires InRange(t) && t.year == 2024 && t.month == 2 && t.day == 15 && t.hours == 14 && t.minutes == 30
    ensures DateTime(t) == "2024-03-15 14:30"
  {
    DateTimeChars(t);
    assert DigitChar(t.year / 1000) == '2' && DigitChar(t.year / 100 % 10) == '0';
    assert DigitChar(t.year / 10 % 10) == '2' && DigitChar(t.year % 10) == '4';
    assert DigitChar((t.month + 1) / 10) == '0' && DigitChar((t.month + 1) % 10) == '3';
    assert DigitChar(t.day / 10) == '1' && DigitChar(t.day % 10) == '5';
    assert DigitChar(t.hours / 10) == '1' && DigitChar(t.hours % 10) == '4';
    assert DigitChar(t.minutes / 10) == '3' && DigitChar(t.minutes % 10) == '0';
  }
}
