/** `formatTime`: a 24-hour "HH:MM" value, as a time input yields it, shown
    as "h:MM AM" or "h:MM PM". `ParseClock12` reads the 12-hour form back,
    so that the round trip pins down what the formatter produces. */
module Clock {
  import opened Domain

  predicate IsDigit(c: char) {
    '0' <= c <= '9'
  }

  function DigitValue(c: char): (d: nat)
    requires IsDigit(c)
    ensures d < 10
  {
    c as int - '0' as int
  }

  function DigitChar(d: nat): (c: char)
    requires d < 10
    ensures IsDigit(c) && DigitValue(c) == d
  {
    ('0' as int + d) as char
  }

  /** `parseInt` of the two-digit hour field. */
  function Hour(t: string): (h: nat)
    requires |t| >= 2 && IsDigit(t[0]) && IsDigit(t[1])
    ensures h < 100
  {
    10 * DigitValue(t[0]) + DigitValue(t[1])
  }

  /** A well-formed 24-hour value: hour 00 to 23, a colon, then the minutes,
      which contain no further colon (so `split(':')` yields two parts). */
  predicate IsClock24(t: string) {
    |t| >= 3 && IsDigit(t[0]) && IsDigit(t[1]) && t[2] == ':' && ':' !in t[3..] && Hour(t) <= 23
  }

  /** Decimal notation, without a leading zero, of an hour 1 to 12. */
  function HourText(h: nat): (s: string)
    requires 1 <= h <= 12
    ensures |s| == 1 <==> h < 10
    ensures |s| == 2 <==> h >= 10
    ensures forall i :: 0 <= i < |s| ==> IsDigit(s[i])
  {
    if h < 10 then [DigitChar(h)] else [DigitChar(h / 10), DigitChar(h % 10)]
  }

  /** The "HH:MM" text of an hour 0 to 23 and its minutes. */
  function Clock24(hour: nat, minutes: string): (t: string)
    requires hour < 24 && ':' !in minutes
    ensures IsClock24(t) && Hour(t) == hour && t[3..] == minutes
  {
    var t := [DigitChar(hour / 10), DigitChar(hour % 10), ':'] + minutes;
    assert t[3..] == minutes;
    t
  }

  /** Every well-formed 24-hour value is the text of its own hour and minutes. */
  lemma Clock24Of(t: string)
    requires IsClock24(t)
    ensures Clock24(Hour(t), t[3..]) == t
  {
    var hour := Hour(t);
    assert DigitChar(DigitValue(t[0])) == t[0] && DigitChar(DigitValue(t[1])) == t[1];
    assert DigitValue(t[0]) == hour / 10 && DigitValue(t[1]) == hour % 10;
    assert t == [t[0], t[1], ':'] + t[3..];
  }

  /** The "h:MM AM|PM" text of an hour 1 to 12. */
  function Clock12(h: nat, minutes: string, pm: bool): (s: string)
    requires 1 <= h <= 12
  {
    HourText(h) + ":" + minutes + " " + (if pm then "PM" else "AM")
  }

  function FormatTime(t: string): (r: string)
    requires IsClock24(t)
    ensures |r| >= 5 && r[|r| - 3] == ' '
    ensures r[|r| - 2..] == (if Hour(t) >= 12 then "PM" else "AM")
    ensures Hour(t) == 0 ==> r == "12:" + t[3..] + " AM"
    ensures Hour(t) == 12 ==> r == "12:" + t[3..] + " PM"
  {
    var hour := Hour(t);
    var h := if hour % 12 == 0 then 12 else hour % 12;
    Clock12(h, t[3..], hour >= 12)
  }

  /** The value of an hour field 1 to 12 written without a leading zero. */
  function ParseHour(digits: string): (h: Option<nat>)
    ensures h.Some? ==> 1 <= h.value <= 12
  {
    if |digits| == 1 && IsDigit(digits[0]) && 1 <= DigitValue(digits[0]) then Some(DigitValue(digits[0]))
    else if |digits| == 2 && IsDigit(digits[0]) && digits[0] != '0' && IsDigit(digits[1]) then
      var v := 10 * DigitValue(digits[0]) + DigitValue(digits[1]);
      if 1 <= v <= 12 then Some(v) else None
    else None
  }

  lemma ParseHourText(h: nat)
    requires 1 <= h <= 12
    ensures ParseHour(HourText(h)) == Some(h)
  {
  }

  /** Reads "h:MM AM" / "h:MM PM" (h from 1 to 12, one or two digits) back
      into the 24-hour "HH:MM" form; anything else is `None`. */
  function ParseClock12(s: string): (r: Option<string>)
    ensures r.Some? ==> IsClock24(r.value)
  {
    if |s| < 5 || s[|s| - 3] != ' ' || s[|s| - 2..] !in {"AM", "PM"} then None
    else
      var body := s[..|s| - 3];
      var k := if body[1] == ':' then 1 else if |body| >= 3 && body[2] == ':' then 2 else 0;
      if k == 0 || ':' in body[k + 1..] then None
      else
        match ParseHour(body[..k])
        case None => None
        case Some(h) =>
          var hour := if s[|s| - 2..] == "AM" then h % 12 else h % 12 + 12;
          Some(Clock24(hour, body[k + 1..]))
  }

  lemma {:induction false} ParseClock12Of(h: nat, minutes: string, pm: bool)
    requires 1 <= h <= 12 && ':' !in minutes
    ensures ParseClock12(Clock12(h, minutes, pm)) == Some(Clock24(if pm then h % 12 + 12 else h % 12, minutes))
  {
    var digits := HourText(h);
    var ampm := if pm then "PM" else "AM";
    var s := Clock12(h, minutes, pm);
    var k := |digits|;
    assert s == (digits + ":" + minutes) + " " + ampm;
    assert s[|s| - 2..] == ampm;
    var body := s[..|s| - 3];
    assert body == digits + ":" + minutes;
    assert body[k] == ':';
    assert k == 2 ==> body[1] != ':';
    assert body[k + 1..] == minutes;
    assert body[..k] == digits;
    ParseHourText(h);
  }

  /** Formatting loses nothing: the 12-hour text reads back as the 24-hour
      value it came from. In particular the shown hour is 1 to 12, the
      suffix is PM exactly from 12:00 on, and the minutes are copied. */
  lemma {:induction false} FormatTimeRoundTrip(t: string)
    requires IsClock24(t)
    ensures ParseClock12(FormatTime(t)) == Some(t)
  {
    var hour := Hour(t);
    var h := if hour % 12 == 0 then 12 else hour % 12;
    assert FormatTime(t) == Clock12(h, t[3..], hour >= 12);
    ParseClock12Of(h, t[3..], hour >= 12);
    assert (if hour >= 12 then h % 12 + 12 else h % 12) == hour;
    Clock24Of(t);
  }

  /** The hour field the parser accepts is the hour's own text, so there is
      one way to write each hour. */
  lemma {:induction false} ParseHourExact(digits: string)
    requires ParseHour(digits).Some?
    ensures HourText(ParseHour(digits).value) == digits
  {
    var h := ParseHour(digits).value;
    if |digits| == 1 {
      assert DigitChar(DigitValue(digits[0])) == digits[0];
    } else {
      assert DigitChar(DigitValue(digits[0])) == digits[0] && DigitChar(DigitValue(digits[1])) == digits[1];
      assert h / 10 == DigitValue(digits[0]) && h % 10 == DigitValue(digits[1]);
    }
  }

  /** Whatever the parser accepts is the 12-hour text of an hour 1 to 12. */
  lemma {:induction false} ParseClock12Shape(s: string) returns (h: nat, minutes: string, pm: bool)
    requires ParseClock12(s).Some?
    ensures 1 <= h <= 12 && ':' !in minutes && s == Clock12(h, minutes, pm)
    ensures ParseClock12(s) == Some(Clock24(if pm then h % 12 + 12 else h % 12, minutes))
  {
    var body := s[..|s| - 3];
    var ampm := s[|s| - 2..];
    var k := if body[1] == ':' then 1 else 2;
    h := ParseHour(body[..k]).value;
    pm := ampm == "PM";
    minutes := body[k + 1..];
    ParseHourExact(body[..k]);
    assert body == body[..k] + ":" + minutes;
    assert s == body + " " + ampm;
  }

  /** The parser accepts only what the formatter prints: together with
      `FormatTimeRoundTrip`, this fixes the formatter's output exactly. */
  lemma {:induction false} ParseClock12Exact(s: string)
    requires ParseClock12(s).Some?
    ensures FormatTime(ParseClock12(s).value) == s
  {
    var h, minutes, pm := ParseClock12Shape(s);
    var hour := if pm then h % 12 + 12 else h % 12;
    var t := Clock24(hour, minutes);
    assert Hour(t) == hour && t[3..] == minutes;
    assert (if hour % 12 == 0 then 12 else hour % 12) == h && (hour >= 12) == pm;
  }
}
