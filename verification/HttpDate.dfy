/** IMF-fixdates (http1/date.v; section 5.6.7 of RFC 9110): written for a second of the
    epoch, read back, and kept for the current second. */
module HttpDate {
  import opened Basics
  import opened Calendar

  const DAY_NAMES: seq<seq<byte>> := [[77, 111, 110], [84, 117, 101], [87, 101, 100], [84, 104, 117], [70, 114, 105],
                                      [83, 97, 116], [83, 117, 110]]
  const MONTH_NAMES: seq<seq<byte>> := [[74, 97, 110], [70, 101, 98], [77, 97, 114], [65, 112, 114], [77, 97, 121],
                                        [74, 117, 110], [74, 117, 108], [65, 117, 103], [83, 101, 112], [79, 99, 116],
                                        [78, 111, 118], [68, 101, 99]]

  /** The seconds before year 10000. */
  const END: nat := 253402300800

  function Two(n: nat): (s: seq<byte>)
    requires n < 100
    ensures |s| == 2
  {
    [48 + n / 10, 48 + n % 10]
  }

  function DayName(w: nat): (s: seq<byte>)
    requires w < 7
    ensures |s| == 3
  {
    DAY_NAMES[w]
  }

  function MonthName(m: nat): (s: seq<byte>)
    requires 1 <= m <= 12
    ensures |s| == 3
  {
    MONTH_NAMES[m - 1]
  }

  /** "Sun, 06 Nov 1994 08:49:37 GMT". */
  function Text(d: Date, w: nat, h: nat, m: nat, s: nat): (t: seq<byte>)
    requires Valid(d) && d.year <= 9999 && w < 7 && h < 24 && m < 60 && s < 60
    ensures |t| == 29
  {
    DateText(d, w) + Two(h) + [58] + Two(m) + [58] + Two(s) + [32, 71, 77, 84]
  }

  /** The text of a second: its date counted day by day, and the time of day. */
  function ImfText(secs: nat): (t: seq<byte>)
    requires secs < END
    ensures |t| == 29
  {
    FourDigitYear(secs / 86400);
    var rem := secs % 86400;
    Text(DateOf(secs / 86400), Weekday(secs / 86400), rem / 3600, rem / 60 % 60, rem % 60)
  }

  /** format_imf. */
  method FormatImf(secs: nat, p: array<byte>)
    requires secs < END && p.Length == 29
    modifies p
    ensures p[..] == ImfText(secs)
  {
    hide DateOf, Weekday, Civil, Leap, Text;
    var days, rem := secs / 86400, secs % 86400;
    FourDigitYear(days);
    WeekdayIs(days);
    CivilCounts(days);
    WriteText(p, Civil(days), (days + 3) % 7, rem / 3600, rem / 60 % 60, rem % 60);
  }

  method WriteText(p: array<byte>, d: Date, w: nat, h: nat, m: nat, s: nat)
    requires Valid(d) && d.year <= 9999 && w < 7 && h < 24 && m < 60 && s < 60 && p.Length == 29
    modifies p
    ensures p[..] == Text(d, w, h, m, s)
  {
    hide Two, DayName, MonthName, Leap;
    WriteDate(p, d, w);
    WriteTime(p, DateText(d, w), h, m, s);
    assert p[..29] == p[..];
  }

  /** The text up to the time. */
  function DateText(d: Date, w: nat): (t: seq<byte>)
    requires Valid(d) && d.year <= 9999 && w < 7
    ensures |t| == 17
  {
    DayName(w) + [44, 32] + Two(d.day) + [32] + MonthName(d.month) + [32] + Two(d.year / 100) + Two(d.year % 100) + [32]
  }

  method WriteDate(p: array<byte>, d: Date, w: nat)
    requires Valid(d) && d.year <= 9999 && w < 7 && p.Length == 29
    modifies p
    ensures p[..17] == DateText(d, w)
  {
    hide Two, DayName, MonthName, Leap;
    var q := PutStr(p, 0, DayName(w));
    assert p[..q] == DayName(w);
    q := PutStr(p, q, [44, 32]);
    q := PutStr(p, q, Two(d.day));
    q := PutStr(p, q, [32]);
    q := PutStr(p, q, MonthName(d.month));
    q := PutStr(p, q, [32]);
    q := PutStr(p, q, Two(d.year / 100));
    q := PutStr(p, q, Two(d.year % 100));
    q := PutStr(p, q, [32]);
  }

  method WriteTime(p: array<byte>, ghost date: seq<byte>, h: nat, m: nat, s: nat)
    requires h < 24 && m < 60 && s < 60 && p.Length == 29 && |date| == 17 && p[..17] == date
    modifies p
    ensures p[..29] == date + Two(h) + [58] + Two(m) + [58] + Two(s) + [32, 71, 77, 84]
  {
    hide Two;
    var q := PutStr(p, 17, Two(h));
    q := PutStr(p, q, [58]);
    q := PutStr(p, q, Two(m));
    q := PutStr(p, q, [58]);
    q := PutStr(p, q, Two(s));
    q := PutStr(p, q, [32, 71, 77, 84]);
  }

  /** Writes s at q and says where it ends; what is before stays. */
  method PutStr(p: array<byte>, q: nat, s: seq<byte>) returns (r: nat)
    requires q + |s| <= p.Length
    modifies p
    ensures r == q + |s| && p[..r] == old(p[..q]) + s
  {
    for k := 0 to |s|
      invariant p[..q + k] == old(p[..q]) + s[..k]
    {
      p[q + k] := s[k];
    }
    r := q + |s|;
  }

  function Digits2(s: seq<byte>, i: nat): (r: Option<nat>)
    requires i + 1 < |s|
    ensures r.Some? ==> r.value < 100
  {
    if s[i] < 48 || s[i] > 57 || s[i + 1] < 48 || s[i + 1] > 57 then None
    else Some((s[i] - 48) * 10 + (s[i + 1] - 48))
  }

  /** The first month whose name stands at 8, from month k on. */
  function MonthAt(s: seq<byte>, k: nat): (r: Option<nat>)
    requires |s| == 29 && 1 <= k <= 13
    ensures r.Some? ==> 1 <= r.value <= 12
    decreases 13 - k
  {
    if k == 13 then None else if s[8..11] == MonthName(k) then Some(k) else MonthAt(s, k + 1)
  }

  predicate Punctuated(s: seq<byte>) {
    && |s| == 29 && s[3] == 44 && s[4] == 32 && s[7] == 32 && s[11] == 32 && s[16] == 32 && s[19] == 58 && s[22] == 58
    && s[25] == 32 && s[26] == 71 && s[27] == 77 && s[28] == 84
  }

  /** What parse_imf reads. */
  function Parse(s: seq<byte>): Option<int> {
    if !Punctuated(s) then None else
      var day :- Digits2(s, 5);
      var month :- MonthAt(s, 1);
      var y1 :- Digits2(s, 12);
      var y2 :- Digits2(s, 14);
      var hh :- Digits2(s, 17);
      var mm :- Digits2(s, 20);
      var ss :- Digits2(s, 23);
      if day < 1 || day > 31 || hh > 23 || mm > 59 || ss > 60 then None
      else Some(DayNumber(y1 * 100 + y2, month, day) * 86400 + hh * 3600 + mm * 60 + ss)
  }

  /** parse_imf. */
  method ParseImf(s: seq<byte>) returns (r: Option<int>)
    ensures r == Parse(s)
  {
    hide DayNumber, Digits2;
    if !Punctuated(s) {
      return None;
    }
    var day := Digits2(s, 5);
    if day.None? {
      return None;
    }
    var month := FindMonth(s);
    if month.None? {
      return None;
    }
    var y1, y2, hh, mm, ss := Digits2(s, 12), Digits2(s, 14), Digits2(s, 17), Digits2(s, 20), Digits2(s, 23);
    if y1.None? || y2.None? || hh.None? || mm.None? || ss.None? {
      return None;
    }
    if day.value < 1 || day.value > 31 || hh.value > 23 || mm.value > 59 || ss.value > 60 {
      return None;
    }
    return Some(DayNumber(y1.value * 100 + y2.value, month.value, day.value) * 86400 + hh.value * 3600
        + mm.value * 60 + ss.value);
  }

  method FindMonth(s: seq<byte>) returns (r: Option<nat>)
    requires |s| == 29
    ensures r == MonthAt(s, 1)
  {
    var k := 1;
    while k <= 12
      invariant 1 <= k <= 13 && MonthAt(s, k) == MonthAt(s, 1)
    {
      if s[8..11] == MonthName(k) {
        return Some(k);
      }
      k := k + 1;
    }
    return None;
  }

  lemma Digits2Of(s: seq<byte>, i: nat, n: nat)
    requires i + 2 <= |s| && n < 100 && s[i..i + 2] == Two(n)
    ensures Digits2(s, i) == Some(n)
  {
    assert s[i] == s[i..i + 2][0] && s[i + 1] == s[i..i + 2][1];
  }

  lemma MonthsDiffer(m: nat, k: nat)
    requires 1 <= m <= 12 && 1 <= k <= 12 && MonthName(m) == MonthName(k)
    ensures m == k
  {
    assert MonthName(m)[0] == MonthName(k)[0] && MonthName(m)[1] == MonthName(k)[1]
        && MonthName(m)[2] == MonthName(k)[2];
  }

  lemma {:induction false} MonthFound(s: seq<byte>, k: nat, m: nat)
    requires |s| == 29 && 1 <= k <= m <= 12 && s[8..11] == MonthName(m)
    ensures MonthAt(s, k) == Some(m)
    decreases m - k
  {
    hide MonthName;
    if s[8..11] == MonthName(k) {
      MonthsDiffer(m, k);
    } else {
      MonthFound(s, k + 1, m);
    }
  }

  /** The fields of a text stand where they are read. */
  lemma TextParts(d: Date, w: nat, h: nat, m: nat, s: nat)
    requires Valid(d) && d.year <= 9999 && w < 7 && h < 24 && m < 60 && s < 60
    ensures var t := Text(d, w, h, m, s);
            && Punctuated(t) && t[5..7] == Two(d.day) && t[8..11] == MonthName(d.month)
                && t[12..14] == Two(d.year / 100)
            && t[14..16] == Two(d.year % 100) && t[17..19] == Two(h) && t[20..22] == Two(m) && t[23..25] == Two(s)
  {
    hide Two, DayName, MonthName, Leap;
  }

  /** A date written and read is the same second. */
  lemma RoundTrip(secs: nat)
    requires secs < END
    ensures Parse(ImfText(secs)) == Some(secs)
  {
    hide DateOf, Weekday, Text, DayNumber, Digits2, Leap;
    var days, rem := secs / 86400, secs % 86400;
    FourDigitYear(days);
    var d := DateOf(days);
    var h, m, s := rem / 3600, rem / 60 % 60, rem % 60;
    var t := Text(d, Weekday(days), h, m, s);
    TextParts(d, Weekday(days), h, m, s);
    Digits2Of(t, 5, d.day);
    MonthFound(t, 1, d.month);
    Digits2Of(t, 12, d.year / 100);
    Digits2Of(t, 14, d.year % 100);
    Digits2Of(t, 17, h);
    Digits2Of(t, 20, m);
    Digits2Of(t, 23, s);
    CountsUp(days);
    TimeOfDay(rem);
  }

  /** The names in the order the calendar counts in. */
  ghost function DayText(w: nat): string
    requires w < 7
  {
    if w == 0 then "Mon" else if w == 1 then "Tue" else if w == 2 then "Wed" else if w == 3 then "Thu"
    else if w == 4 then "Fri" else if w == 5 then "Sat" else "Sun"
  }

  ghost function MonthText(m: nat): string
    requires 1 <= m <= 12
  {
    if m == 1 then "Jan" else if m == 2 then "Feb" else if m == 3 then "Mar" else if m == 4 then "Apr"
    else if m == 5 then "May" else if m == 6 then "Jun" else if m == 7 then "Jul" else if m == 8 then "Aug"
    else if m == 9 then "Sep" else if m == 10 then "Oct" else if m == 11 then "Nov" else "Dec"
  }

  ghost function TwoText(n: nat): string
    requires n < 100
  {
    ['0' + (n / 10) as char, '0' + (n % 10) as char]
  }

  lemma NamesSpelled(w: nat, m: nat)
    requires w < 7 && 1 <= m <= 12
    ensures DayName(w) == Ascii(DayText(w)) && MonthName(m) == Ascii(MonthText(m))
  {
  }

  lemma TwoSpelled(n: nat)
    requires n < 100
    ensures Two(n) == Ascii(TwoText(n))
  {
  }

  lemma AsciiConcat(s: string, t: string)
    ensures Ascii(s + t) == Ascii(s) + Ascii(t)
  {
  }

  lemma MarksSpelled()
    ensures Ascii(", ") == [44, 32] && Ascii(" ") == [32] && Ascii(":") == [58] && Ascii(" GMT") == [32, 71, 77, 84]
  {
  }

  /** Read as a text, a date is the name of the counted weekday, the counted day, and the time
      of day (section 5.6.7 of RFC 9110). */
  lemma Spelled(secs: nat)
    requires secs < END
    ensures var (d, w, rem) := (DateOf(secs / 86400), Weekday(secs / 86400), secs % 86400);
            && d.year <= 9999
            && ImfText(secs)
               == Ascii(DayText(w) + ", ") + Ascii(TwoText(d.day) + " " + MonthText(d.month) + " ")
                  + Ascii(TwoText(d.year / 100) + TwoText(d.year % 100) + " ")
                  + Ascii(TwoText(rem / 3600) + ":" + TwoText(rem / 60 % 60) + ":" + TwoText(rem % 60) + " GMT")
  {
    hide DateOf, Weekday, Two, TwoText, DayName, MonthName, DayText, MonthText, Leap, Ascii;
    var d, w, rem := DateOf(secs / 86400), Weekday(secs / 86400), secs % 86400;
    FourDigitYear(secs / 86400);
    MarksSpelled();
    NamesSpelled(w, d.month);
    var h, m, s := rem / 3600, rem / 60 % 60, rem % 60;
    TwoSpelled(d.day);
    TwoSpelled(d.year / 100);
    TwoSpelled(d.year % 100);
    TwoSpelled(h);
    TwoSpelled(m);
    TwoSpelled(s);
    AsciiConcat(DayText(w), ", ");
    AsciiConcat(TwoText(d.day) + " " + MonthText(d.month), " ");
    AsciiConcat(TwoText(d.day) + " ", MonthText(d.month));
    AsciiConcat(TwoText(d.day), " ");
    AsciiConcat(TwoText(d.year / 100) + TwoText(d.year % 100), " ");
    AsciiConcat(TwoText(d.year / 100), TwoText(d.year % 100));
    AsciiConcat(TwoText(h) + ":" + TwoText(m) + ":" + TwoText(s), " GMT");
    AsciiConcat(TwoText(h) + ":" + TwoText(m) + ":", TwoText(s));
    AsciiConcat(TwoText(h) + ":" + TwoText(m), ":");
    AsciiConcat(TwoText(h) + ":", TwoText(m));
    AsciiConcat(TwoText(h), ":");
  }

  /** The date section 5.6.7 of RFC 9110 writes. */
  lemma Example()
    ensures ImfText(784111777) == Ascii("Sun, ") + Ascii("06 Nov ") + Ascii("1994 ") + Ascii("08:49:37 GMT")
  {
    hide DateOf, Weekday, ImfText, Ascii, TwoText, Civil;
    Spelled(784111777);
    ExampleDay();
    ExampleFields();
    assert DayText(6) + ", " == "Sun, " && "06" + " " + MonthText(11) + " " == "06 Nov ";
    assert "19" + "94" + " " == "1994 " && "08" + ":" + "49" + ":" + "37" + " GMT" == "08:49:37 GMT";
    assert 784111777 / 86400 == 9075 && 784111777 % 86400 == 31777;
    assert 31777 / 3600 == 8 && 31777 / 60 % 60 == 49 && 31777 % 60 == 37;
  }

  lemma ExampleDay()
    ensures DateOf(9075) == Date(1994, 11, 6) && Weekday(9075) == 6
  {
    hide DateOf, Weekday, Civil;
    CivilCounts(9075);
    WeekdayIs(9075);
    ExampleCivil();
  }

  lemma ExampleCivil()
    ensures Civil(9075) == Date(1994, 11, 6)
  {
    hide YearOfEra;
    assert YearOfEra(144155) == 394 by {
      ExampleYear();
    }
    assert 728543 / 146097 == 4;
  }

  lemma ExampleYear()
    ensures YearOfEra(144155) == 394
  {
  }

  lemma ExampleFields()
    ensures TwoText(6) == "06" && TwoText(19) == "19" && TwoText(94) == "94"
    ensures TwoText(8) == "08" && TwoText(49) == "49" && TwoText(37) == "37"
  {
  }

  lemma TimeOfDay(rem: nat)
    ensures rem / 3600 * 3600 + rem / 60 % 60 * 60 + rem % 60 == rem
  {
    var minutes := rem / 60;
    DivUnique(rem, 3600, minutes / 60, minutes % 60 * 60 + rem % 60);
  }

  /** DateCache: the text of the second last asked for. */
  class DateCache {
    var sec: int
    const text: array<byte>

    ghost predicate Fresh()
      reads this, text
    {
      text.Length == 29 && (sec == -1 || (0 <= sec < END && text[..] == ImfText(sec)))
    }

    constructor ()
      ensures Fresh() && fresh(text)
    {
      sec := -1;
      text := new byte[29](_ => 0);
    }

    /** text_now: written again only when the second changed. */
    method TextNow(now: nat) returns (t: seq<byte>)
      requires Fresh() && now < END
      modifies this, text
      ensures Fresh() && sec == now && t == ImfText(now)
    {
      hide ImfText;
      if now != sec {
        sec := now;
        FormatImf(now, text);
      }
      t := text[..];
    }
  }
}
