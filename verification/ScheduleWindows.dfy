/**
 * Weekly schedule windows (database/authorization.go, database/permissions.go).
 *
 * A window names the days it STARTS on and two wall-clock times; an end that is not
 * after the start runs into the next day. The evaluator decides this with a branch on
 * `end > start` and two day tests. The theorem is that the branches compute membership
 * of an interval on the circle of 604800 seconds that make up a week, and exactly when.
 */
module ScheduleWindows {
  import opened Options
  import opened Text

  const DAY := 86400
  const WEEK := 604800

  /** models.ScheduleWindow. */
  datatype Window = Window(daysOfWeek: int, startTime: string, endTime: string)

  datatype TimeError = WrongShape | MalformedField | OutOfRange

  // ---- parseWindowTime -----------------------------------------------------------

  /** strconv.Atoi on two characters: two digits, or a sign and one digit. */
  function AtoiOfTwo(raw: string): Option<int>
    requires |raw| == 2
  {
    if !IsDigit(raw[1]) then None
    else if IsDigit(raw[0]) then Some(10 as int * DigitValue(raw[0]) + DigitValue(raw[1]))
    else if raw[0] == '+' then Some(DigitValue(raw[1]))
    else if raw[0] == '-' then Some(0 - DigitValue(raw[1]))
    else None
  }

  function Field(raw: string): Result<int, TimeError> {
    if |raw| != 2 then Err(MalformedField)
    else match AtoiOfTwo(raw)
      case None => Err(MalformedField)
      case Some(n) => Ok(n)
  }

  function ParseWindowTime(value: string): Result<int, TimeError> {
    var parts := Split(TrimSpace(value), ':');
    if |parts| < 2 || |parts| > 3 then Err(WrongShape)
    else
      var hours, minutes := Field(parts[0]), Field(parts[1]);
      var seconds := if |parts| == 3 then Field(parts[2]) else Ok(0);
      if hours.Err? then Err(hours.error)
      else if minutes.Err? then Err(minutes.error)
      else if seconds.Err? then Err(seconds.error)
      else if hours.value > 23 || minutes.value > 59 || seconds.value > 59 then Err(OutOfRange)
      else Ok(hours.value * 3600 + minutes.value * 60 + seconds.value)
  }

  /** The "HH:MM" text of a minute of the day, as the console and the tools write it. */
  function ClockText(h: nat, m: nat): string
    requires h < 100 && m < 100
  {
    [DigitChar(h / 10), DigitChar(h % 10), ':', DigitChar(m / 10), DigitChar(m % 10)]
  }

  lemma TwoFields(a: string, b: string)
    requires |a| == 2 && |b| == 2 && ':' !in a && ':' !in b
    requires !IsSpace(a[0]) && !IsSpace(b[1])
    ensures TrimSpace(a + ":" + b) == a + ":" + b
    ensures Split(a + ":" + b, ':') == [a, b]
  {
    SplitAtFirst(a, ':', b);
    SplitWithoutSeparator(b, ':');
    TrimSpaceOfTrimmed(a + ":" + b);
  }

  lemma ParsedFields(a: string, b: string)
    requires |a| == 2 && |b| == 2 && ':' !in a && ':' !in b
    requires !IsSpace(a[0]) && !IsSpace(b[1])
    requires Field(a).Ok? && Field(a).value <= 23 && Field(b).Ok? && Field(b).value <= 59
    ensures ParseWindowTime(a + ":" + b) == Ok(Field(a).value * 3600 + Field(b).value * 60)
  {
    hide IsSpace;
    hide Split;
    hide TrimSpace;
    hide Field;
    TwoFields(a, b);
  }

  /** "HH:MM:SS", as a TIME column reads as text. */
  lemma ThreeFields(a: string, b: string, c: string)
    requires |a| == 2 && |b| == 2 && |c| == 2 && ':' !in a && ':' !in b && ':' !in c
    requires !IsSpace(a[0]) && !IsSpace(c[1])
    ensures TrimSpace(a + ":" + (b + ":" + c)) == a + ":" + (b + ":" + c)
    ensures Split(a + ":" + (b + ":" + c), ':') == [a, b, c]
  {
    SplitAtFirst(a, ':', b + ":" + c);
    SplitAtFirst(b, ':', c);
    SplitWithoutSeparator(c, ':');
    TrimSpaceOfTrimmed(a + ":" + (b + ":" + c));
  }

  lemma ParsedThreeFields(a: string, b: string, c: string)
    requires |a| == 2 && |b| == 2 && |c| == 2 && ':' !in a && ':' !in b && ':' !in c
    requires !IsSpace(a[0]) && !IsSpace(c[1])
    requires Field(a).Ok? && Field(b).Ok? && Field(c).Ok?
    ensures ParseWindowTime(a + ":" + (b + ":" + c))
         == if Field(a).value > 23 || Field(b).value > 59 || Field(c).value > 59 then Err(OutOfRange)
            else Ok(Field(a).value * 3600 + Field(b).value * 60 + Field(c).value)
  {
    hide IsSpace;
    hide Split;
    hide TrimSpace;
    hide Field;
    ThreeFields(a, b, c);
  }

  /** Writing a time of day and parsing it back gives the same second. */
  lemma ClockTextRoundTrips(h: nat, m: nat)
    requires h < 24 && m < 60
    ensures ParseWindowTime(ClockText(h, m)) == Ok(h * 3600 + m * 60)
  {
    hide ParseWindowTime;
    var a, b := [DigitChar(h / 10), DigitChar(h % 10)], [DigitChar(m / 10), DigitChar(m % 10)];
    ParsedFields(a, b);
    assert ClockText(h, m) == a + ":" + b;
  }

  predicate Signed(field: string) { field != [] && (field[0] == '+' || field[0] == '-') }

  ghost predicate AllDigits(field: string) {
    forall c :: c in field ==> IsDigit(c)
  }

  /** Two characters: digits, or a sign and a digit. */
  ghost predicate FieldShape(field: string) {
    |field| == 2 && IsDigit(field[1]) && (IsDigit(field[0]) || Signed(field))
  }

  /** The number such a field stands for. */
  ghost function FieldNumber(field: string): int
    requires FieldShape(field)
  {
    if field[0] == '-' then 0 - DigitValue(field[1])
    else if field[0] == '+' then DigitValue(field[1])
    else 10 * DigitValue(field[0]) + DigitValue(field[1])
  }

  lemma FieldIsReadExactlyWhen(field: string)
    ensures Field(field).Ok? <==> FieldShape(field)
    ensures FieldShape(field) ==> Field(field) == Ok(FieldNumber(field))
    ensures FieldShape(field) ==> (AllDigits(field) <==> !Signed(field))
  {
    if FieldShape(field) {
      assert field[0] in field && field[1] in field;
    }
  }

  /** Exactly which texts are accepted: two or three fields of that shape, none of them too large. */
  lemma TimeIsAcceptedExactlyWhen(value: string)
    ensures var parts := Split(TrimSpace(value), ':');
            ParseWindowTime(value).Ok? <==>
            2 <= |parts| <= 3 && (forall k :: 0 <= k < |parts| ==> FieldShape(parts[k]))
            && FieldNumber(parts[0]) <= 23 && FieldNumber(parts[1]) <= 59 && (|parts| == 3 ==> FieldNumber(parts[2]) <= 59)
  {
    hide Split;
    hide TrimSpace;
    hide FieldShape;
    hide FieldNumber;
    var parts := Split(TrimSpace(value), ':');
    FieldIsReadExactlyWhen(parts[0]);
    if |parts| > 1 { FieldIsReadExactlyWhen(parts[1]); }
    if |parts| > 2 { FieldIsReadExactlyWhen(parts[2]); }
    hide Field;
  }

  /**
   * The parser's comment promises that every character of a field is a digit. For an accepted
   * text the promise is kept exactly when no field begins with a sign, which Atoi reads too.
   */
  lemma AcceptedIsAllDigitsExactlyWhenUnsigned(value: string)
    requires ParseWindowTime(value).Ok?
    ensures var parts := Split(TrimSpace(value), ':');
            (forall p :: p in parts ==> AllDigits(p)) <==> (forall p :: p in parts ==> !Signed(p))
  {
    hide ParseWindowTime;
    hide Split;
    hide TrimSpace;
    hide Field;
    TimeIsAcceptedExactlyWhen(value);
    var parts := Split(TrimSpace(value), ':');
    forall p | p in parts ensures AllDigits(p) <==> !Signed(p) {
      var k :| 0 <= k < |parts| && parts[k] == p;
      FieldIsReadExactlyWhen(p);
    }
  }

  /** Two such texts, one of them a negative time. */
  lemma SignedFieldIsAccepted()
    ensures ParseWindowTime("-1:00") == Ok(-3600)
    ensures ParseWindowTime("+9:30") == Ok(34200)
  {
    hide ParseWindowTime;
    ParsedFields("-1", "00");
    ParsedFields("+9", "30");
    assert "-1:00" == "-1" + ":" + "00" && "+9:30" == "+9" + ":" + "30";
  }

  lemma ParsedTimeRange(value: string)
    ensures ParseWindowTime(value).Ok? ==> -DAY < ParseWindowTime(value).value < DAY
  {
  }

  // ---- Day masks -----------------------------------------------------------------

  /** The bit of a day, Monday first: Mon=1 .. Sun=64. */
  function Bit(day: nat): int
    requires day < 7
  {
    [1, 2, 4, 8, 16, 32, 64][day]
  }

  /** `mask & bit != 0`. */
  predicate HasDay(mask: int, day: nat)
    requires day < 7
  {
    mask / Bit(day) % 2 == 1
  }

  /** `mask | bit`. */
  function OrDay(mask: int, day: nat): int
    requires day < 7
  {
    if HasDay(mask, day) then mask else mask + Bit(day)
  }

  /** time.Weekday counts from Sunday; the mask and the week circle count from Monday. */
  function MondayIndex(weekday: nat): nat
    requires weekday < 7
  {
    if weekday == 0 then 6 else weekday - 1
  }

  /** dayBit. */
  function DayBit(weekday: nat): int
    requires weekday < 7
  {
    match weekday
    case 1 => 1 case 2 => 2 case 3 => 4 case 4 => 8 case 5 => 16 case 6 => 32
    case _ => 64
  }

  lemma OrDaySetsOneDay(mask: int, day: nat, e: nat)
    requires 0 <= mask <= 127 && day < 7 && e < 7
    ensures HasDay(OrDay(mask, day), e) <==> e == day || HasDay(mask, e)
    ensures 1 <= OrDay(mask, day) <= 127
  {
    var b := Digits(mask);
    SumOfDigits(mask);
    var c := b[day := 1];
    HasDayReadsDigit(mask, day);
    HasDayReadsDigit(mask, e);
    SettingDigitAddsBit(b, day);
    ReadDigits(c);
    HasDayReadsDigit(Sum(c), e);
  }

  lemma HasDayReadsDigit(mask: int, e: nat)
    requires e < 7
    ensures HasDay(mask, e) <==> Digits(mask)[e] == 1
  {
  }

  lemma SettingDigitAddsBit(b: seq<int>, day: nat)
    requires Binary(b) && day < 7
    ensures Binary(b[day := 1])
    ensures Sum(b[day := 1]) == Sum(b) + (if b[day] == 1 then 0 else Bit(day))
    ensures 1 <= Sum(b[day := 1]) <= 127
  {
  }

  function Digits(mask: int): seq<int> {
    [mask % 2, mask / 2 % 2, mask / 4 % 2, mask / 8 % 2, mask / 16 % 2, mask / 32 % 2, mask / 64 % 2]
  }

  ghost predicate Binary(b: seq<int>) {
    |b| == 7 && forall i :: 0 <= i < 7 ==> 0 <= b[i] <= 1
  }

  function Sum(b: seq<int>): int
    requires |b| == 7
  {
    b[0] + 2 * b[1] + 4 * b[2] + 8 * b[3] + 16 * b[4] + 32 * b[5] + 64 * b[6]
  }

  /** Seven binary digits are read back from their sum. */
  lemma ReadDigits(b: seq<int>)
    requires Binary(b)
    ensures Digits(Sum(b)) == b
  {
    var s := Sum(b);
    var r6 := b[6];
    var r5 := b[5] + 2 * r6;
    var r4 := b[4] + 2 * r5;
    var r3 := b[3] + 2 * r4;
    var r2 := b[2] + 2 * r3;
    var r1 := b[1] + 2 * r2;
    assert s / 2 == r1 && s / 4 == r2 && s / 8 == r3 && s / 16 == r4 && s / 32 == r5 && s / 64 == r6;
  }

  lemma Halvings(mask: int)
    requires 0 <= mask <= 127
    ensures mask / 4 == mask / 2 / 2 && mask / 8 == mask / 4 / 2 && mask / 16 == mask / 8 / 2
    ensures mask / 32 == mask / 16 / 2 && mask / 64 == mask / 32 / 2 && 0 <= mask / 64 <= 1
  {
  }

  /** A mask below 128 is the sum of its digits. */
  lemma SumOfDigits(mask: int)
    requires 0 <= mask <= 127
    ensures Binary(Digits(mask)) && Sum(Digits(mask)) == mask
  {
    Halvings(mask);
    SumOfHalves(mask, mask / 2, mask / 4, mask / 8, mask / 16, mask / 32, mask / 64);
  }

  lemma SumOfHalves(h0: int, h1: int, h2: int, h3: int, h4: int, h5: int, h6: int)
    requires h1 == h0 / 2 && h2 == h1 / 2 && h3 == h2 / 2 && h4 == h3 / 2 && h5 == h4 / 2 && h6 == h5 / 2 && 0 <= h6 <= 1
    ensures h6 % 2 == h6
    ensures h0 % 2 + 2 * (h1 % 2) + 4 * (h2 % 2) + 8 * (h3 % 2) + 16 * (h4 % 2) + 32 * (h5 % 2) + 64 * h6 == h0
  {
  }

  // ---- windowAdmits --------------------------------------------------------------

  /**
   * windowAdmits at a local moment: `weekday` in time.Weekday's numbering, `second`
   * past midnight; yesterday is the previous weekday.
   */
  function WindowAdmits(w: Window, weekday: nat, second: nat): Result<bool, TimeError>
    requires weekday < 7
  {
    var start, end := ParseWindowTime(w.startTime), ParseWindowTime(w.endTime);
    if start.Err? then Err(start.error)
    else if end.Err? then Err(end.error)
    else Ok(TimesAdmit(w.daysOfWeek, start.value, end.value, weekday, second))
  }

  predicate TimesAdmit(mask: int, start: int, end: int, weekday: nat, second: nat)
    requires weekday < 7
  {
    var yesterday := if weekday == 0 then 6 else weekday - 1;
    var startsToday := mask / DayBit(weekday) % 2 != 0;
    var startedYesterday := mask / DayBit(yesterday) % 2 != 0;
    if end > start then startsToday && second >= start && second < end
    else if startsToday && second >= start then true
    else startedYesterday && second < end
  }

  /** How long a window lasts: a whole day more when its end is not after its start. */
  function Length(start: int, end: int): int {
    if end > start then end - start else end - start + DAY
  }

  /** The moment lies in [b*86400+start, b*86400+start+length) for some masked day b, modulo a week. */
  ghost predicate OnWeekCircle(mask: int, start: int, end: int, moment: int) {
    exists b: nat :: b < 7 && HasDay(mask, b) && (moment - (b * DAY + start)) % WEEK < Length(start, end)
  }

  function Moment(weekday: nat, second: nat): int
    requires weekday < 7
  {
    MondayIndex(weekday) * DAY + second
  }

  /** Where one masked day's interval reaches, on the circle. */
  lemma IntervalOfDay(b: nat, day: nat, start: int, end: int, second: nat)
    requires b < 7 && day < 7 && second < DAY
    requires 0 <= start < DAY && 0 <= end < DAY
    ensures (day * DAY + second - (b * DAY + start)) % WEEK < Length(start, end) <==>
            (b == day && start <= second && (end > start ==> second < end))
            || (end <= start && b == (day + 6) % 7 && second < end)
  {
    var k := (day - b + 7) % 7;
    var offset := k * DAY + second - start;
    if offset >= 0 {
      WrapsTo(day * DAY + second - (b * DAY + start), offset);
    } else {
      WrapsTo(day * DAY + second - (b * DAY + start), offset + WEEK);
    }
  }

  lemma WrapsTo(x: int, r: int)
    requires 0 <= r < WEEK
    requires x == r || x == r - WEEK || x == r + WEEK || x == r - 2 * WEEK
    ensures x % WEEK == r
  {
  }

  /** For times that are not negative, the branches of windowAdmits are membership of the week circle. */
  lemma TimesAdmitIsWeekCircle(mask: int, start: int, end: int, weekday: nat, second: nat)
    requires weekday < 7 && second < DAY && 0 <= start < DAY && 0 <= end < DAY
    ensures TimesAdmit(mask, start, end, weekday, second)
       <==> OnWeekCircle(mask, start, end, Moment(weekday, second))
  {
    var day := MondayIndex(weekday);
    var yesterday := (day + 6) % 7;
    forall b: nat | b < 7
      ensures (Moment(weekday, second) - (b * DAY + start)) % WEEK < Length(start, end) <==>
              (b == day && start <= second && (end > start ==> second < end))
              || (end <= start && b == yesterday && second < end)
    {
      IntervalOfDay(b, day, start, end, second);
    }
    DayBitIsBit(weekday);
    DayBitIsBit(if weekday == 0 then 6 else weekday - 1);
    assert HasDay(mask, day) || !HasDay(mask, day);
    assert HasDay(mask, yesterday) || !HasDay(mask, yesterday);
  }

  lemma DayBitIsBit(weekday: nat)
    requires weekday < 7
    ensures DayBit(weekday) == Bit(MondayIndex(weekday)) == [64, 1, 2, 4, 8, 16, 32][weekday]
  {
  }

  // ---- validateWindows -----------------------------------------------------------

  datatype WindowsError = NoWindows | InvalidWindow

  predicate ValidWindow(w: Window) {
    1 <= w.daysOfWeek <= 127
    && ParseWindowTime(w.startTime).Ok? && ParseWindowTime(w.endTime).Ok?
    && ParseWindowTime(w.startTime).value != ParseWindowTime(w.endTime).value
  }

  /** A window set is accepted exactly when it is not empty and every window is usable. */
  method ValidateWindows(windows: seq<Window>) returns (r: Option<WindowsError>)
    ensures r == Some(NoWindows) <==> windows == []
    ensures r == None <==> windows != [] && forall w :: w in windows ==> ValidWindow(w)
  {
    if |windows| == 0 {
      return Some(NoWindows);
    }
    for i := 0 to |windows|
      invariant forall k :: 0 <= k < i ==> ValidWindow(windows[k])
    {
      var w := windows[i];
      if w.daysOfWeek < 1 || w.daysOfWeek > 127 {
        assert w in windows;
        return Some(InvalidWindow);
      }
      var start := ParseWindowTime(w.startTime);
      var end := ParseWindowTime(w.endTime);
      if start.Err? || end.Err? || start.value == end.value {
        assert w in windows;
        return Some(InvalidWindow);
      }
    }
    return None;
  }

  function FirstDay(mask: int): (d: nat)
    requires 1 <= mask <= 127
    ensures d < 7 && HasDay(mask, d)
  {
    SumOfDigits(mask);
    if HasDay(mask, 0) then 0 else if HasDay(mask, 1) then 1 else if HasDay(mask, 2) then 2
    else if HasDay(mask, 3) then 3 else if HasDay(mask, 4) then 4 else if HasDay(mask, 5) then 5 else 6
  }

  /** A moment at which a negative time makes the branches and the circle differ. */
  lemma NegativeTimeDisagrees(mask: int, start: int, end: int) returns (weekday: nat, second: nat)
    requires 1 <= mask <= 127 && -DAY < start < DAY && -DAY < end < DAY && start != end
    requires start < 0 || end < 0
    ensures weekday < 7 && second < DAY
    ensures TimesAdmit(mask, start, end, weekday, second)
         != OnWeekCircle(mask, start, end, Moment(weekday, second))
  {
    var b := FirstDay(mask);
    if end > start {
      // The interval reaches back before the midnight that opens day b; the branch cannot.
      weekday := b;
      second := if end >= 0 then DAY - 1 else DAY + start;
      ReachesBack(b, start, end, second);
    } else {
      // The branch keeps day b to its last second; the interval ends before midnight.
      weekday := (b + 1) % 7;
      second := if start >= 0 then DAY - 1 else DAY + end;
      assert MondayIndex(weekday) == b;
      DayBitIsBit(weekday);
      forall c: nat | c < 7
        ensures (Moment(weekday, second) - (c * DAY + start)) % WEEK >= Length(start, end)
      {
        EndsEarly(b, c, start, end, second);
      }
    }
  }

  lemma ReachesBack(b: nat, start: int, end: int, second: nat)
    requires b < 7 && -DAY < start < 0 && start < end < DAY
    requires second == if end >= 0 then DAY - 1 else DAY + start
    ensures (Moment(b, second) - (b * DAY + start)) % WEEK < Length(start, end)
  {
    WrapsTo(Moment(b, second) - (b * DAY + start), second - DAY - start);
  }

  lemma EndsEarly(b: nat, c: nat, start: int, end: int, second: nat)
    requires b < 7 && c < 7 && -DAY < end < 0 && end < start < DAY
    requires second == if start >= 0 then DAY - 1 else DAY + end
    ensures (b * DAY + second - (c * DAY + start)) % WEEK >= Length(start, end)
  {
    var offset := (b - c + 7) % 7 * DAY + second - start;
    WrapsTo(b * DAY + second - (c * DAY + start), if offset < WEEK then offset else offset - WEEK);
  }

  ghost predicate AgreesWithCircle(w: Window, weekday: nat, second: nat)
    requires weekday < 7 && ValidWindow(w)
  {
    WindowAdmits(w, weekday, second)
    == Ok(OnWeekCircle(w.daysOfWeek, ParseWindowTime(w.startTime).value,
                       ParseWindowTime(w.endTime).value, Moment(weekday, second)))
  }

  /**
   * Among the windows validateWindows accepts, the evaluator agrees with the week circle at
   * every moment exactly when neither time is negative.
   */
  lemma ValidWindowMatchesCircleIffNotNegative(w: Window)
    requires ValidWindow(w)
    ensures (forall weekday: nat, second: nat | weekday < 7 && second < DAY :: AgreesWithCircle(w, weekday, second))
       <==> ParseWindowTime(w.startTime).value >= 0 && ParseWindowTime(w.endTime).value >= 0
  {
    var start, end := ParseWindowTime(w.startTime).value, ParseWindowTime(w.endTime).value;
    ParsedTimeRange(w.startTime);
    ParsedTimeRange(w.endTime);
    if start >= 0 && end >= 0 {
      forall weekday: nat, second: nat | weekday < 7 && second < DAY
        ensures AgreesWithCircle(w, weekday, second)
      {
        TimesAdmitIsWeekCircle(w.daysOfWeek, start, end, weekday, second);
      }
    } else {
      var weekday, second := NegativeTimeDisagrees(w.daysOfWeek, start, end);
      assert !AgreesWithCircle(w, weekday, second);
    }
  }
}
