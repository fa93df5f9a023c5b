/**
 * The schedule tools' window text (assistant/tools_schedules_parse.go):
 * "Mon-Fri 08:00-18:00; Sat 09:00-13:00".
 *
 * The parser's loops are proved against a reading of the text as a list of cyclic day
 * ranges and two clock times, and its output against the evaluator that will read it.
 */
module ScheduleText {
  import opened Options
  import opened Text
  import opened ScheduleWindows

  datatype ParseError =
    | TooFewFields | ForeignSeparator | EmptyEntry | TwoHyphens | UnknownDay
    | BadTimeRange | BadClock | PastEndOfDay | StartsAt24 | NoWindowsGiven

  // ---- Days ----------------------------------------------------------------------

  const DAY_NAMES: map<string, nat> :=
    map["mon" := 0, "monday" := 0, "tue" := 1, "tuesday" := 1, "wed" := 2, "wednesday" := 2,
        "thu" := 3, "thursday" := 3, "fri" := 4, "friday" := 4, "sat" := 5, "saturday" := 5,
        "sun" := 6, "sunday" := 6]

  function DayIndex(name: string): (r: Option<nat>)
    ensures r.Some? ==> r.value < 7
  {
    var key := ToLower(TrimSpace(name));
    if key in DAY_NAMES then Some(DAY_NAMES[key]) else None
  }

  /** Every day met going forward from `first` until `last`, wrapping after Sunday. */
  datatype DayRange = DayRange(first: nat, last: nat)

  predicate InRange(r: DayRange, day: nat) {
    (day - r.first) % 7 <= (r.last - r.first) % 7
  }

  predicate Denotes(ranges: seq<DayRange>, day: nat) {
    exists i :: 0 <= i < |ranges| && InRange(ranges[i], day)
  }

  /** The mask whose days are exactly the ones the ranges denote. */
  function MaskOf(ranges: seq<DayRange>): int {
    Sum(seq(7, d requires 0 <= d < 7 => if Denotes(ranges, d) then 1 else 0))
  }

  /** One comma-separated part: a day, or a range with one hyphen. */
  function PartMeaning(part: string): (r: Result<DayRange, ParseError>)
    ensures r.Ok? ==> r.value.first < 7 && r.value.last < 7
  {
    var p := TrimSpace(part);
    if p == "" then Err(EmptyEntry)
    else if '-' in p then
      var (from, to, _) := Cut(p, '-');
      if '-' in to then Err(TwoHyphens)
      else match (DayIndex(from), DayIndex(to))
        case (Some(a), Some(b)) => Ok(DayRange(a, b))
        case _ => Err(UnknownDay)
    else match DayIndex(p)
      case Some(a) => Ok(DayRange(a, a))
      case None => Err(UnknownDay)
  }

  /** The parts in order, up to the first that cannot be read. */
  function PartsMeaning(parts: seq<string>): (r: Result<seq<DayRange>, ParseError>)
    ensures r.Ok? ==> |r.value| == |parts|
  {
    if parts == [] then Ok([])
    else
      var before := PartsMeaning(parts[..|parts| - 1]);
      if before.Err? then before
      else match PartMeaning(parts[|parts| - 1])
        case Err(e) => Err(e)
        case Ok(range) => Ok(before.value + [range])
  }

  const KEYWORDS: map<string, DayRange> :=
    map["daily" := DayRange(0, 6), "everyday" := DayRange(0, 6), "every day" := DayRange(0, 6),
        "all" := DayRange(0, 6), "weekdays" := DayRange(0, 4), "weekends" := DayRange(5, 6),
        "weekend" := DayRange(5, 6)]

  predicate HasForeignSeparator(s: string) {
    var padded := " " + ToLower(s) + " ";
    ContainsAny(s, "\U{2013}\U{2014}&/+") || Contains(padded, " to ") || Contains(padded, " and ")
  }

  /** What the day part of a window means. */
  function DaysMeaning(text: string): Result<seq<DayRange>, ParseError> {
    var s := TrimSpace(text);
    if ToLower(s) in KEYWORDS then Ok([KEYWORDS[ToLower(s)]])
    else if HasForeignSeparator(s) then Err(ForeignSeparator)
    else PartsMeaning(Split(s, ','))
  }

  lemma {:induction false} FirstPartErrorStands(parts: seq<string>, i: nat)
    requires i <= |parts| && PartsMeaning(parts[..i]).Err?
    ensures PartsMeaning(parts) == PartsMeaning(parts[..i])
  {
    if i == |parts| {
      assert parts[..i] == parts;
    } else {
      assert parts[..|parts| - 1][..i] == parts[..i];
      FirstPartErrorStands(parts[..|parts| - 1], i);
    }
  }

  ghost predicate MaskMeans(mask: int, ranges: seq<DayRange>) {
    0 <= mask <= 127 && forall d: nat :: d < 7 ==> (HasDay(mask, d) <==> Denotes(ranges, d))
  }

  lemma MaskMeansIsMaskOf(mask: int, ranges: seq<DayRange>)
    requires MaskMeans(mask, ranges)
    ensures mask == MaskOf(ranges)
  {
    var digits := seq(7, d requires 0 <= d < 7 => if Denotes(ranges, d) then 1 else 0);
    forall d: nat | d < 7 ensures Digits(mask)[d] == digits[d] {
      HasDayReadsDigit(mask, d);
      SumOfDigits(mask);
      assert Binary(Digits(mask));
    }
    assert Digits(mask) == digits;
    SumOfDigits(mask);
  }

  /** The mask of a reading denotes exactly its days, and at least one. */
  lemma MaskOfMeans(ranges: seq<DayRange>)
    requires forall i :: 0 <= i < |ranges| ==> ranges[i].first < 7
    ensures MaskMeans(MaskOf(ranges), ranges)
    ensures ranges != [] ==> MaskOf(ranges) >= 1
  {
    var digits := seq(7, d requires 0 <= d < 7 => if Denotes(ranges, d) then 1 else 0);
    ReadDigits(digits);
    forall d: nat | d < 7 ensures HasDay(Sum(digits), d) <==> Denotes(ranges, d) {
      HasDayReadsDigit(Sum(digits), d);
    }
    if ranges != [] {
      var d := ranges[0].first;
      assert InRange(ranges[0], d);
      assert digits[d] == 1;
    }
  }

  lemma CycleStep(a: nat, k: nat, d: nat)
    requires a < 7 && k < 7 && d < 7
    ensures (d - a) % 7 == k <==> d == (a + k) % 7
    ensures ((a + k) % 7 + 1) % 7 == (a + k + 1) % 7
  {
  }

  /** The cyclic loop of a range: it ends, and it adds exactly the days of the range. */
  method AddRange(before: int, a: nat, b: nat) returns (mask: int)
    requires 0 <= before <= 127 && a < 7 && b < 7
    ensures 1 <= mask <= 127
    ensures forall d: nat :: d < 7 ==> (HasDay(mask, d) <==> HasDay(before, d) || InRange(DayRange(a, b), d))
  {
    mask := before;
    var i := a;
    ghost var k: nat := 0;
    while true
      invariant 0 <= mask <= 127
      invariant 0 <= k <= (b - a) % 7 && i == (a + k) % 7
      invariant forall d: nat :: d < 7 ==> (HasDay(mask, d) <==> HasDay(before, d) || (d - a) % 7 < k)
      decreases 7 - k
    {
      ghost var was := mask;
      mask := OrDay(mask, i);
      forall d: nat | d < 7
        ensures HasDay(mask, d) <==> HasDay(before, d) || (d - a) % 7 < k + 1
      {
        OrDaySetsOneDay(was, i, d);
        CycleStep(a, k, d);
      }
      OrDaySetsOneDay(was, i, i);
      CycleStep(a, k, b);
      if i == b {
        break;
      }
      i := (i + 1) % 7;
      k := k + 1;
    }
  }

  /** parseDays: the loop over the parts builds the mask of exactly the days the text denotes. */
  method ParseDays(text: string) returns (r: Result<int, ParseError>)
    ensures r == DaysMask(text)
    ensures r.Ok? ==> 1 <= r.value <= 127 && MaskMeans(r.value, DaysMeaning(text).value)
  {
    var s := TrimSpace(text);
    if ToLower(s) in KEYWORDS {
      var mask := KeywordMask(KEYWORDS[ToLower(s)]);
      return Ok(mask);
    }
    if HasForeignSeparator(s) {
      return Err(ForeignSeparator);
    }
    r := ParseDayList(Split(s, ','));
    if r.Ok? {
      MaskMeansIsMaskOf(r.value, PartsMeaning(Split(s, ',')).value);
    }
  }

  /** The constants everyDay, weekdays and weekends. */
  method KeywordMask(range: DayRange) returns (mask: int)
    requires range in KEYWORDS.Values
    ensures 1 <= mask <= 127 && MaskMeans(mask, [range]) && mask == MaskOf([range])
  {
    mask := if range.first == 5 then 96 else if range.last == 4 then 31 else 127;
    assert range == DayRange(0, 6) || range == DayRange(0, 4) || range == DayRange(5, 6);
    KeywordMaskMeans(range, mask);
    MaskMeansIsMaskOf(mask, [range]);
  }

  method ParseDayList(parts: seq<string>) returns (r: Result<int, ParseError>)
    requires parts != []
    ensures PartsMeaning(parts).Err? ==> r == Err(PartsMeaning(parts).error)
    ensures PartsMeaning(parts).Ok? ==> r.Ok? && 1 <= r.value <= 127 && MaskMeans(r.value, PartsMeaning(parts).value)
  {
    var mask := 0;
    for i := 0 to |parts|
      invariant 0 <= mask <= 127
      invariant PartsMeaning(parts[..i]).Ok? && MaskMeans(mask, PartsMeaning(parts[..i]).value)
      invariant i > 0 ==> mask >= 1
    {
      ghost var sofar := PartsMeaning(parts[..i]).value;
      assert parts[..i + 1][..i] == parts[..i];
      var range := PartMeaning(parts[i]);
      if range.Err? {
        FirstPartErrorStands(parts, i + 1);
        return Err(range.error);
      }
      mask := AddRange(mask, range.value.first, range.value.last);
      DenotesOneMore(sofar, range.value);
    }
    assert parts[..|parts|] == parts;
    return Ok(mask);
  }

  function DaysMask(text: string): Result<int, ParseError> {
    match DaysMeaning(text)
    case Err(e) => Err(e)
    case Ok(ranges) => Ok(MaskOf(ranges))
  }

  lemma DenotesOneMore(ranges: seq<DayRange>, r: DayRange)
    ensures forall d: nat :: Denotes(ranges + [r], d) <==> Denotes(ranges, d) || InRange(r, d)
  {
    forall d: nat ensures Denotes(ranges + [r], d) <==> Denotes(ranges, d) || InRange(r, d) {
      if Denotes(ranges, d) {
        var i :| 0 <= i < |ranges| && InRange(ranges[i], d);
        assert (ranges + [r])[i] == ranges[i];
      }
      assert (ranges + [r])[|ranges|] == r;
    }
  }

  lemma KeywordMaskMeans(range: DayRange, mask: int)
    requires (range, mask) in {(DayRange(0, 6), 127), (DayRange(0, 4), 31), (DayRange(5, 6), 96)}
    ensures MaskMeans(mask, [range])
  {
    forall d: nat | d < 7 ensures HasDay(mask, d) <==> Denotes([range], d) {
      assert Denotes([range], d) <==> InRange(range, d) by { assert [range][0] == range; }
      HasDayReadsDigit(mask, d);
      assert Digits(127) == [1, 1, 1, 1, 1, 1, 1];
      assert Digits(31) == [1, 1, 1, 1, 1, 0, 0];
      assert Digits(96) == [0, 0, 0, 0, 0, 1, 1];
    }
  }

  // ---- Times ---------------------------------------------------------------------

  /** clockPattern: the hour and minute groups of ^([01]?[0-9]|2[0-4]):([0-5][0-9])$. */
  function MatchClock(s: string): Option<(string, string)> {
    if |s| < 4 || |s| > 5 || s[|s| - 3] != ':' then None
    else
      var h, m := s[..|s| - 3], s[|s| - 2..];
      var hourOk :=
        if |h| == 1 then IsDigit(h[0])
        else (h[0] in "01" && IsDigit(h[1])) || (h[0] == '2' && '0' <= h[1] <= '4');
      if hourOk && '0' <= m[0] <= '5' && IsDigit(m[1]) then Some((h, m)) else None
  }

  function HourOf(h: string): nat
    requires (|h| == 1 && IsDigit(h[0])) || (|h| == 2 && IsDigit(h[0]) && IsDigit(h[1]))
  {
    if |h| == 1 then DigitValue(h[0]) else 10 * DigitValue(h[0]) + DigitValue(h[1])
  }

  function NormaliseClock(text: string): Result<string, ParseError> {
    match MatchClock(TrimSpace(text))
    case None => Err(BadClock)
    case Some((h, m)) =>
      if HourOf(h) == 24 && m != "00" then Err(PastEndOfDay)
      else Ok([DigitChar(HourOf(h) / 10), DigitChar(HourOf(h) % 10), ':'] + m)
  }

  function ParseTimeRange(s: string): Result<(string, string), ParseError> {
    var (from, to, ok) := Cut(s, '-');
    if !ok || '-' in to then Err(BadTimeRange)
    else match NormaliseClock(from)
      case Err(e) => Err(e)
      case Ok(start) =>
        if start == "24:00" then Err(StartsAt24)
        else match NormaliseClock(to)
          case Err(e) => Err(e)
          case Ok(end) => Ok((start, if end == "24:00" then "23:59" else end))
  }

  /** The second of the day a clock text was written for; 86400 for 24:00. */
  function WrittenSecond(text: string): nat
    requires MatchClock(TrimSpace(text)).Some?
  {
    var (h, m) := MatchClock(TrimSpace(text)).value;
    HourOf(h) * 3600 + (10 * DigitValue(m[0]) + DigitValue(m[1])) * 60
  }

  lemma NormalisedClockText(text: string)
    requires NormaliseClock(text).Ok?
    ensures MatchClock(TrimSpace(text)).Some?
    ensures var h := WrittenSecond(text) / 3600; var m := WrittenSecond(text) % 3600 / 60;
            h <= 24 && m < 60 && WrittenSecond(text) == h * 3600 + m * 60
            && (h == 24 ==> m == 0) && NormaliseClock(text).value == ClockText(h, m)
  {
    var (h, m) := MatchClock(TrimSpace(text)).value;
    var minute := 10 * DigitValue(m[0]) + DigitValue(m[1]);
    assert WrittenSecond(text) / 3600 == HourOf(h);
    assert WrittenSecond(text) % 3600 / 60 == minute;
    assert m == [DigitChar(minute / 10), DigitChar(minute % 10)];
    if HourOf(h) == 24 { assert m == "00"; }
  }

  lemma NormalisedClockReadsBack(text: string)
    requires NormaliseClock(text).Ok?
    ensures MatchClock(TrimSpace(text)).Some? && WrittenSecond(text) <= DAY
    ensures NormaliseClock(text).value == "24:00" <==> WrittenSecond(text) == DAY
    ensures WrittenSecond(text) < DAY ==> ParseWindowTime(NormaliseClock(text).value) == Ok(WrittenSecond(text))
  {
    NormalisedClockText(text);
    hide ParseWindowTime;
    hide NormaliseClock;
    hide TrimSpace;
    hide WrittenSecond;
    var h, m := WrittenSecond(text) / 3600, WrittenSecond(text) % 3600 / 60;
    assert ClockText(24, 0) == "24:00";
    if h < 24 {
      ClockTextRoundTrips(h, m);
      assert DigitValue(ClockText(h, m)[0]) == h / 10 && DigitValue(ClockText(h, m)[1]) == h % 10;
    }
  }

  /**
   * The two texts of an accepted range are read back by the evaluator's own parser as the
   * times that were written, except that an end of 24:00 becomes the last minute of the day.
   */
  lemma AcceptedRangeReadsBack(s: string)
    requires ParseTimeRange(s).Ok?
    ensures var (from, to, _) := Cut(s, '-');
            MatchClock(TrimSpace(from)).Some? && MatchClock(TrimSpace(to)).Some?
            && WrittenSecond(from) < DAY && WrittenSecond(to) <= DAY
            && ParseWindowTime(ParseTimeRange(s).value.0) == Ok(WrittenSecond(from))
            && ParseWindowTime(ParseTimeRange(s).value.1)
               == Ok(if WrittenSecond(to) == DAY then DAY - 60 else WrittenSecond(to))
  {
    hide ParseWindowTime;
    hide NormaliseClock;
    hide MatchClock;
    hide TrimSpace;
    hide Cut;
    hide WrittenSecond;
    var (from, to, _) := Cut(s, '-');
    NormalisedClockReadsBack(from);
    NormalisedClockReadsBack(to);
    LastMinute();
  }

  lemma LastMinute()
    ensures ParseWindowTime("23:59") == Ok(DAY - 60)
  {
    hide ParseWindowTime;
    ClockTextRoundTrips(23, 59);
    assert ClockText(23, 59) == "23:59";
  }

  // ---- Windows -------------------------------------------------------------------

  /** One ";"-separated entry: days, then a time range. */
  function EntryMeaning(entry: string): Result<Window, ParseError> {
    var fields := Fields(entry);
    if |fields| < 2 then Err(TooFewFields)
    else match DaysMask(JoinWithSpace(fields[..|fields| - 1]))
      case Err(e) => Err(e)
      case Ok(mask) =>
        match ParseTimeRange(fields[|fields| - 1])
        case Err(e) => Err(e)
        case Ok((start, end)) => Ok(Window(mask, start, end))
  }

  /** The entries in order, up to the first that cannot be read; blank ones are skipped. */
  function EntriesMeaning(entries: seq<string>): Result<seq<Window>, ParseError> {
    if entries == [] then Ok([])
    else
      var before := EntriesMeaning(entries[..|entries| - 1]);
      var entry := TrimSpace(entries[|entries| - 1]);
      if before.Err? || entry == "" then before
      else match EntryMeaning(entry)
        case Err(e) => Err(e)
        case Ok(w) => Ok(before.value + [w])
  }

  function WindowsMeaning(text: string): Result<seq<Window>, ParseError> {
    match EntriesMeaning(Split(text, ';'))
    case Err(e) => Err(e)
    case Ok(ws) => if ws == [] then Err(NoWindowsGiven) else Ok(ws)
  }

  lemma {:induction false} FirstEntryErrorStands(entries: seq<string>, i: nat)
    requires i <= |entries| && EntriesMeaning(entries[..i]).Err?
    ensures EntriesMeaning(entries) == EntriesMeaning(entries[..i])
  {
    if i == |entries| {
      assert entries[..i] == entries;
    } else {
      assert entries[..|entries| - 1][..i] == entries[..i];
      FirstEntryErrorStands(entries[..|entries| - 1], i);
    }
  }

  method ParseEntry(entry: string) returns (r: Result<Window, ParseError>)
    ensures r == EntryMeaning(entry)
  {
    var fields := Fields(entry);
    if |fields| < 2 {
      return Err(TooFewFields);
    }
    var times := fields[|fields| - 1];
    var days := JoinWithSpace(fields[..|fields| - 1]);
    var mask := ParseDays(days);
    if mask.Err? {
      return Err(mask.error);
    }
    var range := ParseTimeRange(times);
    if range.Err? {
      return Err(range.error);
    }
    return Ok(Window(mask.value, range.value.0, range.value.1));
  }

  /** parseWindows. */
  method ParseWindows(text: string) returns (r: Result<seq<Window>, ParseError>)
    ensures r == WindowsMeaning(text)
  {
    hide EntryMeaning;
    hide Split;
    hide TrimSpace;
    var windows := [];
    var entries := Split(text, ';');
    for i := 0 to |entries|
      invariant EntriesMeaning(entries[..i]) == Ok(windows)
    {
      var entry := TrimSpace(entries[i]);
      assert entries[..i + 1][..i] == entries[..i];
      if entry != "" {
        var w := ParseEntry(entry);
        if w.Err? {
          FirstEntryErrorStands(entries, i + 1);
          return Err(w.error);
        }
        windows := windows + [w.value];
      }
    }
    assert entries[..|entries|] == entries;
    if |windows| == 0 {
      return Err(NoWindowsGiven);
    }
    return Ok(windows);
  }

  ghost predicate WellFormed(w: Window) {
    1 <= w.daysOfWeek <= 127
    && ParseWindowTime(w.startTime).Ok? && 0 <= ParseWindowTime(w.startTime).value < DAY
    && ParseWindowTime(w.endTime).Ok? && 0 <= ParseWindowTime(w.endTime).value < DAY
  }

  lemma {:induction false} PartsMeaningRanges(parts: seq<string>)
    requires PartsMeaning(parts).Ok?
    ensures forall r :: r in PartsMeaning(parts).value ==> r.first < 7 && r.last < 7
  {
    if parts != [] { PartsMeaningRanges(parts[..|parts| - 1]); }
  }

  lemma DaysMaskInRange(text: string)
    requires DaysMask(text).Ok?
    ensures 1 <= DaysMask(text).value <= 127
  {
    var ranges := DaysMeaning(text).value;
    var s := TrimSpace(text);
    hide TrimSpace;
    hide ToLower;
    hide Split;
    hide HasForeignSeparator;
    if ToLower(s) !in KEYWORDS {
      PartsMeaningRanges(Split(s, ','));
    }
    hide PartsMeaning;
    hide MaskOf;
    forall i | 0 <= i < |ranges| ensures ranges[i].first < 7 { assert ranges[i] in ranges; }
    MaskOfMeans(ranges);
  }

  lemma EntryIsWellFormed(entry: string)
    requires EntryMeaning(entry).Ok?
    ensures WellFormed(EntryMeaning(entry).value)
  {
    hide Fields;
    hide JoinWithSpace;
    hide DaysMask;
    hide ParseTimeRange;
    hide ParseWindowTime;
    hide TrimSpace;
    hide Cut;
    hide MatchClock;
    hide WrittenSecond;
    var fields := Fields(entry);
    DaysMaskInRange(JoinWithSpace(fields[..|fields| - 1]));
    AcceptedRangeReadsBack(fields[|fields| - 1]);
  }

  lemma {:induction false} EntriesAreWellFormed(entries: seq<string>)
    requires EntriesMeaning(entries).Ok?
    ensures forall w :: w in EntriesMeaning(entries).value ==> WellFormed(w)
  {
    if entries != [] {
      EntriesAreWellFormed(entries[..|entries| - 1]);
      var entry := TrimSpace(entries[|entries| - 1]);
      if entry != "" { EntryIsWellFormed(entry); }
    }
  }

  predicate EqualEnds(w: Window) {
    ParseWindowTime(w.startTime) == ParseWindowTime(w.endTime)
  }

  /**
   * What the parser accepts, the route refuses for one reason only: a window whose two
   * times are the same.
   */
  lemma ParsedSetIsRefusedExactlyForEqualEnds(text: string)
    requires WindowsMeaning(text).Ok?
    ensures var ws := WindowsMeaning(text).value;
            ws != [] && (forall w :: w in ws ==> WellFormed(w))
            && ((forall w :: w in ws ==> ValidWindow(w)) <==> (forall w :: w in ws ==> !EqualEnds(w)))
  {
    EntriesAreWellFormed(Split(text, ';'));
  }
}
