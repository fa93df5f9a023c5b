/**
 * What the schedule tools' text says, spelled out: names, ranges, lists and clock times as an
 * operator writes them, against what the parser makes of them.
 */
module ScheduleTextMeaning {
  import opened Options
  import opened Text
  import opened ScheduleWindows
  import opened ScheduleText

  // ---- Names ------------------------------------------------------------------------

  const SHORT := ["mon", "tue", "wed", "thu", "fri", "sat", "sun"]
  const FULL := ["monday", "tuesday", "wednesday", "thursday", "friday", "saturday", "sunday"]

  /** A day's three-letter or full name, in any case, with blanks around it. */
  predicate NamesDay(text: string, day: nat) {
    day < 7 && (ToLower(TrimSpace(text)) == SHORT[day] || ToLower(TrimSpace(text)) == FULL[day])
  }

  lemma NamesOf(day: nat)
    requires day < 7
    ensures SHORT[day] in DAY_NAMES && DAY_NAMES[SHORT[day]] == day
    ensures FULL[day] in DAY_NAMES && DAY_NAMES[FULL[day]] == day
  {
    if day == 0 {} else if day == 1 {} else if day == 2 {} else if day == 3 {} else if day == 4 {} else if day == 5 {} else {}
  }

  lemma NameTable(key: string)
    requires key in DAY_NAMES
    ensures DAY_NAMES[key] < 7 && (key == SHORT[DAY_NAMES[key]] || key == FULL[DAY_NAMES[key]])
  {
  }

  lemma DayIndexMeans(name: string, day: nat)
    ensures DayIndex(name) == Some(day) <==> NamesDay(name, day)
  {
    hide TrimSpace;
    hide ToLower;
    var key := ToLower(TrimSpace(name));
    if key in DAY_NAMES { NameTable(key); }
    if day < 7 { NamesOf(day); }
  }

  // ---- Parts ------------------------------------------------------------------------

  ghost predicate IsRange(part: string, a: string, b: string) {
    part == a + "-" + b && '-' !in a && '-' !in b
  }

  /** A part that names one day, or the first and the last of a range with one hyphen between them. */
  ghost predicate PartIs(part: string, first: nat, last: nat) {
    || (first == last && '-' !in part && NamesDay(part, first))
    || exists a, b :: IsRange(part, a, b) && NamesDay(a, first) && NamesDay(b, last)
  }

  lemma {:induction false} CutMeans(s: string, sep: char)
    ensures var (a, b, found) := Cut(s, sep);
            && sep !in a && (found <==> sep in s)
            && (found ==> s == a + [sep] + b) && (!found ==> a == s && b == "")
  {
    if s != [] && s[0] != sep {
      CutMeans(s[1..], sep);
      assert s == [s[0]] + s[1..];
    } else if s != [] {
      assert s == [s[0]] + s[1..];
    }
  }

  lemma {:induction false} CutOf(a: string, sep: char, b: string)
    requires sep !in a
    ensures Cut(a + [sep] + b, sep) == (a, b, true)
  {
    var s := a + [sep] + b;
    if a == [] {
      assert s[1..] == b;
    } else {
      CutOf(a[1..], sep, b);
      assert s[1..] == a[1..] + [sep] + b;
      assert a == [a[0]] + a[1..];
    }
  }

  lemma TrimmedTwice(s: string)
    ensures TrimSpace(TrimSpace(s)) == TrimSpace(s)
  {
    TrimSpaceShape(s);
    TrimSpaceOfTrimmed(TrimSpace(s));
  }

  /** A part is read as a range of days exactly when it is one, from its first name to its second. */
  lemma PartIsReadExactlyWhen(part: string, first: nat, last: nat)
    ensures PartMeaning(part) == Ok(DayRange(first, last)) <==> PartIs(TrimSpace(part), first, last)
  {
    var p := TrimSpace(part);
    TrimmedTwice(part);
    NotANameWhenBlank(p, first);
    hide TrimSpace;
    hide NamesDay;
    hide DayIndex;
    var (from, to, found) := Cut(p, '-');
    CutMeans(p, '-');
    hide Cut;
    DayIndexMeans(from, first);
    DayIndexMeans(to, last);
    DayIndexMeans(p, first);
    assert '-' in p && '-' !in to ==> IsRange(p, from, to);
    forall a, b | IsRange(p, a, b) ensures '-' in p && a == from && b == to {
      CutOf(a, '-', b);
      assert p[|a|] == '-';
    }
  }

  lemma NotANameWhenBlank(p: string, day: nat)
    ensures p == "" ==> !NamesDay(p, day)
  {
    TrimSpaceOfTrimmed("");
  }

  /** Why a part is refused: it is blank, it has two hyphens, or a name in it is none. */
  lemma PartErrors(part: string)
    ensures PartMeaning(part) == Err(EmptyEntry) <==> forall c :: c in part ==> IsSpace(c)
    ensures PartMeaning(part) == Err(TwoHyphens) <==>
            exists i, j :: 0 <= i < j < |TrimSpace(part)| && TrimSpace(part)[i] == '-' && TrimSpace(part)[j] == '-'
    ensures PartMeaning(part).Err? ==> PartMeaning(part).error in {EmptyEntry, TwoHyphens, UnknownDay}
  {
    TrimsToNothing(part);
    var p := TrimSpace(part);
    hide TrimSpace;
    hide DayIndex;
    var (from, to, found) := Cut(p, '-');
    CutMeans(p, '-');
    hide Cut;
    if '-' in p {
      if '-' in to {
        var j :| 0 <= j < |to| && to[j] == '-';
        assert p[|from|] == '-' && p[|from| + 1 + j] == '-';
      }
      if i, j :| 0 <= i < j < |p| && p[i] == '-' && p[j] == '-' {
        assert i >= |from|;
        assert to[j - |from| - 1] == p[j];
      }
    }
  }

  // ---- Days -------------------------------------------------------------------------

  /** The day k days after another, Sunday before Monday. */
  function DayAfter(day: nat, k: nat): nat { (day + k) % 7 }

  /** Met going forward from the first day, on the way to the last. */
  ghost predicate DayOfRange(day: nat, first: nat, last: nat) {
    exists k: nat :: k <= (last - first) % 7 && DayAfter(first, k) == day
  }

  lemma InRangeMeans(day: nat, first: nat, last: nat)
    requires day < 7 && first < 7 && last < 7
    ensures InRange(DayRange(first, last), day) <==> DayOfRange(day, first, last)
  {
    var k: nat := (day - first) % 7;
    CycleStep(first, k, day);
    assert DayAfter(first, k) == day;
    if j: nat :| j <= (last - first) % 7 && DayAfter(first, j) == day {
      CycleStep(first, j, day);
    }
  }

  /** Some part of a list says the day. */
  ghost predicate SaidBy(parts: seq<string>, day: nat) {
    exists i, first, last | 0 <= i < |parts| :: PartIs(TrimSpace(parts[i]), first, last) && DayOfRange(day, first, last)
  }

  ghost predicate AllParts(parts: seq<string>) {
    forall i | 0 <= i < |parts| :: IsPart(parts[i])
  }

  ghost predicate IsPart(part: string) {
    exists first, last :: PartIs(TrimSpace(part), first, last)
  }

  lemma OneIsPart(part: string)
    ensures IsPart(part) <==> PartMeaning(part).Ok?
  {
    hide PartIs;
    hide PartMeaning;
    if PartMeaning(part).Ok? {
      var r := PartMeaning(part).value;
      assert r == DayRange(r.first, r.last);
      PartIsReadExactlyWhen(part, r.first, r.last);
    }
    if first, last :| PartIs(TrimSpace(part), first, last) {
      PartIsReadExactlyWhen(part, first, last);
    }
  }

  lemma {:induction false} PartsAreRead(parts: seq<string>)
    ensures PartsMeaning(parts).Ok? <==> AllParts(parts)
    ensures PartsMeaning(parts).Ok? ==> forall i | 0 <= i < |parts| :: PartMeaning(parts[i]) == Ok(PartsMeaning(parts).value[i])
  {
    hide PartMeaning;
    hide IsPart;
    if parts != [] {
      var n := |parts| - 1;
      PartsAreRead(parts[..n]);
      OneIsPart(parts[n]);
    }
  }

  lemma PartsDenote(parts: seq<string>, day: nat)
    requires AllParts(parts) && day < 7
    ensures PartsMeaning(parts).Ok? && (Denotes(PartsMeaning(parts).value, day) <==> SaidBy(parts, day))
  {
    PartsAreRead(parts);
    hide PartsMeaning;
    hide PartIs;
    hide InRange;
    hide DayOfRange;
    var ranges := PartsMeaning(parts).value;
    forall i | 0 <= i < |parts|
      ensures ranges[i].first < 7 && ranges[i].last < 7 && PartIs(TrimSpace(parts[i]), ranges[i].first, ranges[i].last)
      ensures InRange(ranges[i], day) <==> DayOfRange(day, ranges[i].first, ranges[i].last)
    {
      assert PartMeaning(parts[i]) == Ok(ranges[i]);
      assert ranges[i] == DayRange(ranges[i].first, ranges[i].last);
      PartIsReadExactlyWhen(parts[i], ranges[i].first, ranges[i].last);
      InRangeMeans(day, ranges[i].first, ranges[i].last);
    }
    if SaidBy(parts, day) {
      var i, first, last :| 0 <= i < |parts| && PartIs(TrimSpace(parts[i]), first, last) && DayOfRange(day, first, last);
      assert PartMeaning(parts[i]) == Ok(ranges[i]);
      PartIsReadExactlyWhen(parts[i], first, last);
      assert InRange(ranges[i], day);
    }
  }

  /** The words for whole stretches of the week. */
  predicate EveryDay(s: string) { ToLower(s) == "daily" || ToLower(s) == "everyday" || ToLower(s) == "every day" || ToLower(s) == "all" }

  predicate WorkingDays(s: string) { ToLower(s) == "weekdays" }

  predicate RestDays(s: string) { ToLower(s) == "weekends" || ToLower(s) == "weekend" }

  predicate IsWord(s: string) { EveryDay(s) || WorkingDays(s) || RestDays(s) }

  predicate At(s: string, sub: string, i: nat) { i + |sub| <= |s| && s[i..i + |sub|] == sub }

  /** Somewhere in a text another occurs. */
  ghost predicate OccursIn(s: string, sub: string) { exists i: nat :: At(s, sub, i) }

  lemma {:induction false} ContainsMeans(s: string, sub: string)
    ensures Contains(s, sub) <==> OccursIn(s, sub)
  {
    if HasPrefix(s, sub) {
      assert At(s, sub, 0);
    } else if s != [] {
      ContainsMeans(s[1..], sub);
      if i: nat :| At(s[1..], sub, i) {
        assert s[1..][i..i + |sub|] == s[i + 1..i + 1 + |sub|];
        assert At(s, sub, i + 1);
      }
      if i: nat :| At(s, sub, i) {
        assert i > 0 && s[1..][i - 1..i - 1 + |sub|] == s[i..i + |sub|];
        assert At(s[1..], sub, i - 1);
      }
    }
  }

  /** Written with another separator: a dash that is not a hyphen, &, /, +, or the words "to" and "and". */
  ghost predicate OtherSeparator(s: string) {
    || (exists c :: c in s && (c == '\U{2013}' || c == '\U{2014}' || c == '&' || c == '/' || c == '+'))
    || OccursIn(" " + ToLower(s) + " ", " to ") || OccursIn(" " + ToLower(s) + " ", " and ")
  }

  lemma ForeignMeans(s: string)
    ensures HasForeignSeparator(s) <==> OtherSeparator(s)
  {
    ContainsMeans(" " + ToLower(s) + " ", " to ");
    ContainsMeans(" " + ToLower(s) + " ", " and ");
    hide Contains;
    hide OccursIn;
    hide ToLower;
    assert forall c :: c in "\U{2013}\U{2014}&/+" <==> (c == '\U{2013}' || c == '\U{2014}' || c == '&' || c == '/' || c == '+');
    assert ContainsAny(s, "\U{2013}\U{2014}&/+") <==> exists c :: c in s && c in "\U{2013}\U{2014}&/+";
  }

  /** The day a text says, as an operator reads it. */
  ghost predicate Says(text: string, day: nat) {
    var s := TrimSpace(text);
    if EveryDay(s) then true
    else if WorkingDays(s) then day <= 4
    else if RestDays(s) then day >= 5
    else SaidBy(Split(s, ','), day)
  }

  lemma WordsAre(s: string)
    ensures ToLower(s) in KEYWORDS <==> IsWord(s)
    ensures EveryDay(s) ==> KEYWORDS[ToLower(s)] == DayRange(0, 6)
    ensures WorkingDays(s) ==> KEYWORDS[ToLower(s)] == DayRange(0, 4)
    ensures RestDays(s) ==> KEYWORDS[ToLower(s)] == DayRange(5, 6)
  {
    hide ToLower;
  }

  /**
   * A day text is accepted exactly when it is one of the words, or a comma list, with no other
   * separator, of names and of ranges from one name to another; its mask then has exactly the
   * days it says.
   */
  lemma DaysAreReadExactlyWhen(text: string)
    ensures DaysMask(text).Ok? <==>
            IsWord(TrimSpace(text)) || (!OtherSeparator(TrimSpace(text)) && AllParts(Split(TrimSpace(text), ',')))
    ensures DaysMask(text).Ok? ==> 1 <= DaysMask(text).value <= 127
    ensures DaysMask(text).Ok? ==> forall day: nat | day < 7 :: HasDay(DaysMask(text).value, day) <==> Says(text, day)
  {
    var s := TrimSpace(text);
    WordsAre(s);
    ForeignMeans(s);
    PartsAreRead(Split(s, ','));
    hide TrimSpace;
    hide Split;
    hide ToLower;
    hide HasForeignSeparator;
    hide OtherSeparator;
    hide PartsMeaning;
    hide AllParts;
    hide MaskOf;
    if DaysMask(text).Ok? {
      var ranges := DaysMeaning(text).value;
      if IsWord(s) {
        assert ranges == [KEYWORDS[ToLower(s)]];
        OneWordDenotes(KEYWORDS[ToLower(s)]);
      } else {
        RangesAreInWeek(Split(s, ','));
        forall day: nat | day < 7 ensures Denotes(ranges, day) <==> SaidBy(Split(s, ','), day) {
          PartsDenote(Split(s, ','), day);
        }
      }
      hide Denotes;
      hide SaidBy;
      MaskOfMeans(ranges);
    }
  }

  lemma RangesAreInWeek(parts: seq<string>)
    requires PartsMeaning(parts).Ok? && parts != []
    ensures PartsMeaning(parts).value != []
    ensures forall i | 0 <= i < |PartsMeaning(parts).value| :: PartsMeaning(parts).value[i].first < 7
  {
    PartsMeaningRanges(parts);
  }

  lemma OneWordDenotes(r: DayRange)
    requires r == DayRange(0, 6) || r == DayRange(0, 4) || r == DayRange(5, 6)
    ensures forall day: nat | day < 7 :: Denotes([r], day) <==> r.first <= day <= r.last
  {
    forall day: nat | day < 7 ensures Denotes([r], day) <==> InRange(r, day) {
      assert [r][0] == r;
    }
  }

  // ---- Texts made of names ------------------------------------------------------------

  predicate Letter(c: char) { 'a' <= c <= 'z' || 'A' <= c <= 'Z' }

  /** One of the fourteen names, in any case, and nothing around it. */
  predicate Name(x: string, day: nat) {
    day < 7 && (forall c :: c in x ==> Letter(c)) && |x| >= 3 && (ToLower(x) == SHORT[day] || ToLower(x) == FULL[day])
  }

  /** A name alone, or a range from one to another. */
  datatype Entry = One(x: string, day: nat) | Span(x: string, first: nat, y: string, last: nat)

  predicate GoodEntry(e: Entry) {
    match e
    case One(x, day) => Name(x, day)
    case Span(x, first, y, last) => Name(x, first) && Name(y, last)
  }

  function EntryText(e: Entry): string {
    match e
    case One(x, _) => x
    case Span(x, _, y, _) => x + "-" + y
  }

  /** The days of an entry: its own, or those from the first to the last, past Sunday if need be. */
  ghost predicate EntrySays(e: Entry, day: nat) {
    match e
    case One(_, own) => day == own
    case Span(_, first, _, last) => DayOfRange(day, first, last)
  }

  function Joined(entries: seq<Entry>): string {
    if entries == [] then ""
    else if |entries| == 1 then EntryText(entries[0])
    else EntryText(entries[0]) + "," + Joined(entries[1..])
  }

  predicate Tidy(s: string) { s != [] && forall c :: c in s ==> Letter(c) || c == '-' || c == ',' }

  lemma TidyIsTrimmed(s: string)
    requires Tidy(s)
    ensures TrimSpace(s) == s
  {
    assert s[0] in s && s[|s| - 1] in s;
    TrimSpaceOfTrimmed(s);
  }

  lemma NameIsTidy(x: string, day: nat)
    requires Name(x, day)
    ensures Tidy(x) && '-' !in x && ',' !in x && NamesDay(x, day)
  {
    assert forall c :: c in x ==> c != '-' && c != ',';
    TidyIsTrimmed(x);
    hide TrimSpace;
  }

  lemma EntryIsTidy(e: Entry)
    requires GoodEntry(e)
    ensures Tidy(EntryText(e)) && ',' !in EntryText(e) && |EntryText(e)| >= 3
  {
    hide ToLower;
    match e
    case One(x, day) => NameIsTidy(x, day);
    case Span(x, first, y, last) =>
      NameIsTidy(x, first);
      NameIsTidy(y, last);
  }

  lemma EntryIsPart(e: Entry, day: nat)
    requires GoodEntry(e) && day < 7
    ensures IsPart(EntryText(e))
    ensures EntrySays(e, day) <==> SaidBy([EntryText(e)], day)
  {
    var text := EntryText(e);
    EntryIsTidy(e);
    TidyIsTrimmed(text);
    EntryParts(e);
    hide EntryText;
    hide NamesDay;
    hide TrimSpace;
    hide PartIs;
    var (f, l) := match e case One(_, own) => (own, own) case Span(_, a, _, b) => (a, b);
    assert PartIs(text, f, l);
    PartIsReadExactlyWhen(text, f, l);
    forall first, last | PartIs(text, first, last) ensures first == f && last == l {
      PartIsReadExactlyWhen(text, first, last);
    }
    OwnRange(f, day);
    hide DayOfRange;
    assert [text][0] == text;
    if SaidBy([text], day) {
      var i, first, last :| 0 <= i < |[text]| && PartIs(TrimSpace([text][i]), first, last) && DayOfRange(day, first, last);
      assert i == 0;
    }
    if EntrySays(e, day) {
      assert PartIs(TrimSpace([text][0]), f, l) && DayOfRange(day, f, l);
    }
  }

  lemma EntryParts(e: Entry)
    requires GoodEntry(e)
    ensures match e
            case One(x, day) => day < 7 && PartIs(EntryText(e), day, day)
            case Span(x, first, y, last) => first < 7 && last < 7 && PartIs(EntryText(e), first, last)
  {
    match e
    case One(x, day) => NameIsTidy(x, day);
    case Span(x, first, y, last) =>
      NameIsTidy(x, first);
      NameIsTidy(y, last);
      hide NamesDay;
      assert IsRange(EntryText(e), x, y);
  }

  lemma OwnRange(own: nat, day: nat)
    requires own < 7 && day < 7
    ensures DayOfRange(day, own, own) <==> day == own
  {
    assert DayAfter(own, 0) == own;
  }

  lemma {:induction false} JoinedSplits(entries: seq<Entry>)
    requires entries != [] && forall i | 0 <= i < |entries| :: GoodEntry(entries[i])
    ensures Tidy(Joined(entries)) && |Joined(entries)| >= 3
    ensures |Split(Joined(entries), ',')| == |entries|
    ensures forall i | 0 <= i < |entries| :: Split(Joined(entries), ',')[i] == EntryText(entries[i])
  {
    hide GoodEntry;
    hide EntryText;
    EntryIsTidy(entries[0]);
    if |entries| == 1 {
      SplitWithoutSeparator(EntryText(entries[0]), ',');
    } else {
      JoinedSplits(entries[1..]);
      SplitAtFirst(EntryText(entries[0]), ',', Joined(entries[1..]));
      assert Joined(entries) == EntryText(entries[0]) + [','] + Joined(entries[1..]);
      var rest := Split(Joined(entries[1..]), ',');
      assert Split(Joined(entries), ',') == [EntryText(entries[0])] + rest;
      forall i | 0 < i < |entries| ensures Split(Joined(entries), ',')[i] == EntryText(entries[i]) {
        assert rest[i - 1] == EntryText(entries[1..][i - 1]);
      }
    }
  }

  lemma {:induction false} LowerOfTidy(s: string)
    ensures (forall c :: c in s ==> Letter(c) || c == '-' || c == ',') ==>
              forall c :: c in ToLower(s) ==> Letter(c) || c == '-' || c == ','
  {
    if s != [] {
      LowerOfTidy(s[1..]);
      assert s == [s[0]] + s[1..];
    }
  }

  lemma TidyHasNoOther(s: string)
    requires Tidy(s) && |s| >= 3 && ToLower(s) != "and"
    ensures !OtherSeparator(s)
  {
    LowerOfTidy(s);
    var lower := ToLower(s);
    hide ToLower;
    NoSpaceInside(lower, " to ");
    NoSpaceInside(lower, " and ");
    hide OccursIn;
    ShortWords(lower);
  }

  /** A text without blanks, put between two, has blanks only at its ends. */
  lemma NoSpaceInside(s: string, sub: string)
    requires forall c :: c in s ==> c != ' '
    requires |sub| >= 2 && sub[0] == ' ' && sub[|sub| - 1] == ' '
    ensures OccursIn(" " + s + " ", sub) ==> sub == " " + s + " "
  {
    var padded := " " + s + " ";
    forall j | 0 < j < |padded| - 1 ensures padded[j] != ' ' {
      assert padded[j] == s[j - 1] && s[j - 1] in s;
    }
    if i: nat :| At(padded, sub, i) {
      var n := |sub|;
      assert padded[i] == padded[i..i + n][0] && padded[i + n - 1] == padded[i..i + n][n - 1];
      assert i == 0 && i + n == |padded|;
      assert padded[0..|padded|] == padded;
    }
  }

  lemma ShortWords(s: string)
    requires |s| >= 3
    ensures " to " != " " + s + " "
    ensures " and " == " " + s + " " ==> s == "and"
  {
    assert |" " + s + " "| == |s| + 2;
    if " and " == " " + s + " " { assert s == (" " + s + " ")[1..|s| + 1]; }
  }

  /** No name, range or list is the word "and" or one of the words for whole stretches. */
  lemma EntriesAreNoWords(entries: seq<Entry>)
    requires entries != [] && forall i | 0 <= i < |entries| :: GoodEntry(entries[i])
    ensures !IsWord(Joined(entries)) && ToLower(Joined(entries)) != "and"
  {
    hide *;
    if |entries| == 1 && entries[0].One? {
      OneIsNoWord(entries[0]);
      JoinedOne(entries[0]);
      assert entries == [entries[0]];
    } else {
      HasMark(entries);
      MarkedIsNoWord(Joined(entries));
    }
  }

  lemma JoinedOne(e: Entry)
    ensures Joined([e]) == EntryText(e)
  {
  }

  lemma OneIsNoWord(e: Entry)
    requires GoodEntry(e) && e.One?
    ensures !IsWord(EntryText(e)) && ToLower(EntryText(e)) != "and"
  {
    NotWords(e.day);
    WordsAre(e.x);
    hide ToLower;
    hide IsWord;
  }

  lemma MarkedIsNoWord(s: string)
    requires '-' in s || ',' in s
    ensures !IsWord(s) && ToLower(s) != "and"
  {
    MarkStays(s);
    WordsHaveNoMark();
    hide ToLower;
  }

  lemma WordsHaveNoMark()
    ensures '-' !in "daily" && '-' !in "everyday" && '-' !in "every day" && '-' !in "all" && '-' !in "weekdays"
    ensures '-' !in "weekends" && '-' !in "weekend" && '-' !in "and"
    ensures ',' !in "daily" && ',' !in "everyday" && ',' !in "every day" && ',' !in "all" && ',' !in "weekdays"
    ensures ',' !in "weekends" && ',' !in "weekend" && ',' !in "and"
  {
  }

  lemma NotWords(day: nat)
    requires day < 7
    ensures SHORT[day] !in KEYWORDS && FULL[day] !in KEYWORDS && SHORT[day] != "and" && FULL[day] != "and"
  {
    if day == 0 {} else if day == 1 {} else if day == 2 {} else if day == 3 {} else if day == 4 {} else if day == 5 {} else {}
  }

  lemma HasMark(entries: seq<Entry>)
    requires entries != [] && (|entries| > 1 || entries[0].Span?)
    ensures '-' in Joined(entries) || ',' in Joined(entries)
  {
    if |entries| > 1 {
      assert Joined(entries)[|EntryText(entries[0])|] == ',';
    } else {
      assert EntryText(entries[0])[|entries[0].x|] == '-';
    }
  }

  lemma {:induction false} MarkStays(s: string)
    ensures '-' in s ==> '-' in ToLower(s)
    ensures ',' in s ==> ',' in ToLower(s)
  {
    if s != [] {
      MarkStays(s[1..]);
      assert s == [s[0]] + s[1..];
      if s[0] == '-' || s[0] == ',' { assert ToLower(s)[0] == s[0]; }
      assert forall c :: c in ToLower(s[1..]) ==> c in ToLower(s);
    }
  }

  lemma SaidByOne(parts: seq<string>, day: nat)
    ensures SaidBy(parts, day) <==> exists i | 0 <= i < |parts| :: SaidBy([parts[i]], day)
  {
    hide PartIs;
    hide TrimSpace;
    hide DayOfRange;
    if i :| 0 <= i < |parts| && SaidBy([parts[i]], day) {
      var j, first, last :| 0 <= j < |[parts[i]]| && PartIs(TrimSpace([parts[i]][j]), first, last) && DayOfRange(day, first, last);
      assert j == 0;
    }
    if i, first, last :| 0 <= i < |parts| && PartIs(TrimSpace(parts[i]), first, last) && DayOfRange(day, first, last) {
      assert PartIs(TrimSpace([parts[i]][0]), first, last) && DayOfRange(day, first, last);
      assert SaidBy([parts[i]], day);
    }
  }

  lemma PartsAreAll(parts: seq<string>)
    requires forall i | 0 <= i < |parts| :: IsPart(parts[i])
    ensures AllParts(parts)
  {
    hide IsPart;
  }

  lemma SaysParts(text: string, day: nat)
    requires TrimSpace(text) == text && !IsWord(text)
    ensures Says(text, day) <==> SaidBy(Split(text, ','), day)
  {
    hide SaidBy;
    hide TrimSpace;
    hide ToLower;
    hide Split;
  }

  /** Names, ranges from one name to another, and comma lists of them are accepted, and mean the days they say. */
  lemma WrittenDaysAreRead(entries: seq<Entry>)
    requires entries != [] && forall i | 0 <= i < |entries| :: GoodEntry(entries[i])
    ensures DaysMask(Joined(entries)).Ok?
    ensures forall day: nat | day < 7 :: HasDay(DaysMask(Joined(entries)).value, day) <==>
              exists i | 0 <= i < |entries| :: EntrySays(entries[i], day)
  {
    hide *;
    var text := Joined(entries);
    var parts := Split(text, ',');
    JoinedSplits(entries);
    TidyIsTrimmed(text);
    EntriesAreNoWords(entries);
    TidyHasNoOther(text);
    forall i | 0 <= i < |parts| ensures IsPart(parts[i]) {
      EntryIsPart(entries[i], 0);
    }
    PartsAreAll(parts);
    DaysAreReadExactlyWhen(text);
    forall day: nat | day < 7
      ensures Says(text, day) <==> exists i | 0 <= i < |entries| :: EntrySays(entries[i], day)
    {
      SaysParts(text, day);
      SaidByOne(parts, day);
      forall i | 0 <= i < |entries| ensures SaidBy([parts[i]], day) <==> EntrySays(entries[i], day) {
        EntryIsPart(entries[i], day);
      }
    }
  }

  /** An entry is read as the mask of the days it says. */
  lemma EntryMask(e: Entry, mask: int)
    requires GoodEntry(e) && 0 <= mask <= 127
    requires forall day: nat | day < 7 :: HasDay(mask, day) <==> EntrySays(e, day)
    ensures DaysMask(EntryText(e)) == Ok(mask)
  {
    hide *;
    JoinedOne(e);
    WrittenDaysAreRead([e]);
    DaysAreReadExactlyWhen(EntryText(e));
    forall day: nat | day < 7 ensures HasDay(DaysMask(EntryText(e)).value, day) <==> HasDay(mask, day) {
      assert [e][0] == e;
    }
    SameDaysSameMask(DaysMask(EntryText(e)).value, mask);
  }

  lemma SpanDays(first: nat, last: nat, mask: int, day: nat)
    requires (first, last, mask) == (0, 4, 31) || (first, last, mask) == (4, 0, 113)
    requires day < 7
    ensures HasDay(mask, day) <==> DayOfRange(day, first, last)
  {
    InRangeMeans(day, first, last);
    hide DayOfRange;
    HasDayReadsDigit(mask, day);
    assert Digits(31) == [1, 1, 1, 1, 1, 0, 0] && Digits(113) == [1, 0, 0, 0, 1, 1, 1];
  }

  /** Monday to Friday is those five days; Friday to Monday is Friday to Sunday and Monday. */
  lemma WorkingWeekAndWeekend()
    ensures DaysMask("Mon-Fri") == Ok(31) && DaysMask("Fri-Mon") == Ok(113)
  {
    TwoNames();
    SpanTexts();
    hide *;
    SpanMask("Mon", 0, "Fri", 4, 31);
    SpanMask("Fri", 4, "Mon", 0, 113);
  }

  lemma SpanTexts()
    ensures EntryText(Span("Mon", 0, "Fri", 4)) == "Mon-Fri" && EntryText(Span("Fri", 4, "Mon", 0)) == "Fri-Mon"
  {
  }

  lemma SpanMask(x: string, first: nat, y: string, last: nat, mask: int)
    requires Name(x, first) && Name(y, last)
    requires (first, last, mask) == (0, 4, 31) || (first, last, mask) == (4, 0, 113)
    ensures DaysMask(EntryText(Span(x, first, y, last))) == Ok(mask)
  {
    hide Name;
    hide DaysMask;
    hide EntryText;
    hide DayOfRange;
    hide HasDay;
    forall day: nat | day < 7 ensures HasDay(mask, day) <==> DayOfRange(day, first, last) {
      SpanDays(first, last, mask, day);
    }
    EntryMask(Span(x, first, y, last), mask);
  }

  lemma TwoNames()
    ensures Name("Mon", 0) && Name("Fri", 4)
  {
    assert ToLower("on") == "on" && ToLower("ri") == "ri";
  }

  lemma SameDaysSameMask(a: int, b: int)
    requires 0 <= a <= 127 && 0 <= b <= 127 && forall day: nat | day < 7 :: HasDay(a, day) <==> HasDay(b, day)
    ensures a == b
  {
    SumOfDigits(a);
    SumOfDigits(b);
    forall day: nat | day < 7 ensures Digits(a)[day] == Digits(b)[day] {
      HasDayReadsDigit(a, day);
      HasDayReadsDigit(b, day);
    }
    assert Digits(a) == Digits(b);
  }

  // ---- Clock times --------------------------------------------------------------------

  /** HH:MM up to 24:00, with one digit for an hour below ten if so wished. */
  predicate Writes(s: string, h: nat, m: nat) {
    h <= 24 && m < 60 && (h == 24 ==> m == 0)
    && (s == ClockText(h, m) || (h < 10 && s == [DigitChar(h)] + ClockText(h, m)[2..]))
  }

  /** A clock text is accepted exactly when it writes a time, which is what it becomes, with two digits each. */
  lemma ClockIsReadExactlyWhen(text: string)
    ensures NormaliseClock(text).Ok? <==> exists h, m :: Writes(TrimSpace(text), h, m)
    ensures forall h, m | Writes(TrimSpace(text), h, m) :: NormaliseClock(text) == Ok(ClockText(h, m))
  {
    hide TrimSpace;
    var s := TrimSpace(text);
    forall h, m | Writes(s, h, m) ensures NormaliseClock(text) == Ok(ClockText(h, m)) {
      WrittenIsNormalised(text, h, m);
    }
    if NormaliseClock(text).Ok? {
      NormalisedIsWritten(text);
    }
  }

  lemma WrittenIsNormalised(text: string, h: nat, m: nat)
    requires Writes(TrimSpace(text), h, m)
    ensures NormaliseClock(text) == Ok(ClockText(h, m))
  {
    hide TrimSpace;
    var s := TrimSpace(text);
    var hour, minute := s[..|s| - 3], s[|s| - 2..];
    assert |s| == 4 || |s| == 5;
    assert minute == [DigitChar(m / 10), DigitChar(m % 10)];
    if |s| == 4 {
      assert hour == [DigitChar(h)];
    } else {
      assert hour == [DigitChar(h / 10), DigitChar(h % 10)];
    }
    assert MatchClock(s) == Some((hour, minute)) && HourOf(hour) == h;
    if h == 24 { assert minute == "00"; }
    assert [DigitChar(h / 10), DigitChar(h % 10), ':'] + minute == ClockText(h, m);
  }

  lemma NormalisedIsWritten(text: string)
    requires NormaliseClock(text).Ok?
    ensures exists h, m :: Writes(TrimSpace(text), h, m)
  {
    hide TrimSpace;
    var s := TrimSpace(text);
    var (hour, minute) := MatchClock(s).value;
    MatchedIsWritten(s, hour, minute);
  }

  lemma MatchedIsWritten(s: string, hour: string, minute: string)
    requires MatchClock(s) == Some((hour, minute)) && (HourOf(hour) == 24 ==> minute == "00")
    ensures exists h, m :: Writes(s, h, m)
  {
    var h, m: nat := HourOf(hour), 10 * DigitValue(minute[0]) + DigitValue(minute[1]);
    assert s == hour + ":" + minute;
    TwoDigits(minute);
    hide MatchClock;
    if |hour| == 1 {
      assert s == [DigitChar(h)] + ClockText(h, m)[2..];
    } else {
      TwoDigits(hour);
      assert s == ClockText(h, m);
    }
    assert Writes(s, h, m);
  }

  lemma TwoDigits(s: string)
    requires |s| == 2 && IsDigit(s[0]) && IsDigit(s[1])
    ensures var v: nat := 10 * DigitValue(s[0]) + DigitValue(s[1]); s == [DigitChar(v / 10), DigitChar(v % 10)]
  {
  }

  /** A time range: two clock times with one hyphen, the first before 24:00. An end of 24:00 is written 23:59. */
  ghost predicate RangeIs(s: string, h: nat, m: nat, k: nat, n: nat) {
    h < 24 && exists a, b :: IsRange(s, a, b) && Writes(TrimSpace(a), h, m) && Writes(TrimSpace(b), k, n)
  }

  lemma TimesAreReadExactlyWhen(s: string)
    ensures ParseTimeRange(s).Ok? <==> exists h, m, k, n :: RangeIs(s, h, m, k, n)
    ensures forall h, m, k, n | RangeIs(s, h, m, k, n) ::
              k <= 24 && m < 60 && n < 60 && ParseTimeRange(s) == Ok((ClockText(h, m), if k == 24 then "23:59" else ClockText(k, n)))
  {
    hide TrimSpace;
    hide NormaliseClock;
    hide Writes;
    var (from, to, found) := Cut(s, '-');
    CutMeans(s, '-');
    hide Cut;
    ClockIsReadExactlyWhen(from);
    ClockIsReadExactlyWhen(to);
    forall a, b | IsRange(s, a, b) ensures found && a == from && b == to {
      RangeIsCut(s, a, b);
    }
    forall h, m, k, n | RangeIs(s, h, m, k, n)
      ensures k <= 24 && m < 60 && n < 60 && ParseTimeRange(s) == Ok((ClockText(h, m), if k == 24 then "23:59" else ClockText(k, n)))
    {
      WritesInRange(TrimSpace(from), h, m);
      WritesInRange(TrimSpace(to), k, n);
      EndOfDay(h, m);
      EndOfDay(k, n);
    }
    if ParseTimeRange(s).Ok? {
      var h, m :| Writes(TrimSpace(from), h, m);
      var k, n :| Writes(TrimSpace(to), k, n);
      WritesInRange(TrimSpace(from), h, m);
      EndOfDay(h, m);
      assert IsRange(s, from, to);
      assert RangeIs(s, h, m, k, n);
    }
  }

  lemma RangeIsCut(s: string, a: string, b: string)
    requires IsRange(s, a, b)
    ensures Cut(s, '-') == (a, b, true)
  {
    CutOf(a, '-', b);
  }

  lemma WritesInRange(s: string, h: nat, m: nat)
    requires Writes(s, h, m)
    ensures h <= 24 && m < 60 && (h == 24 ==> m == 0)
  {
  }

  lemma EndOfDay(h: nat, m: nat)
    requires h <= 24 && m < 60
    ensures ClockText(h, m) == "24:00" <==> h == 24 && m == 0
  {
    assert DigitValue(ClockText(h, m)[0]) == h / 10 && DigitValue(ClockText(h, m)[1]) == h % 10;
    assert DigitValue(ClockText(h, m)[3]) == m / 10 && DigitValue(ClockText(h, m)[4]) == m % 10;
    assert DigitValue('2') == 2 && DigitValue('4') == 4 && DigitValue('0') == 0;
    assert DigitChar(0) == '0' && DigitChar(2) == '2' && DigitChar(4) == '4';
  }

  // ---- Windows ------------------------------------------------------------------------

  /** A window as an operator writes it: days, and from one time to another. */
  datatype Line = Line(days: seq<Entry>, h: nat, m: nat, k: nat, n: nat)

  predicate GoodLine(line: Line) {
    && line.days != [] && (forall i | 0 <= i < |line.days| :: GoodEntry(line.days[i]))
    && line.h < 24 && line.m < 60 && line.k <= 24 && line.n < 60 && (line.k == 24 ==> line.n == 0)
  }

  function TimesText(line: Line): string
    requires GoodLine(line)
  {
    ClockText(line.h, line.m) + "-" + ClockText(line.k, line.n)
  }

  function LineText(line: Line): string
    requires GoodLine(line)
  {
    Joined(line.days) + " " + TimesText(line)
  }

  /** What the window of a line has to be. */
  ghost predicate IsWindowOf(w: Window, line: Line)
    requires GoodLine(line)
  {
    && (forall day: nat | day < 7 :: HasDay(w.daysOfWeek, day) <==> exists i | 0 <= i < |line.days| :: EntrySays(line.days[i], day))
    && w.startTime == ClockText(line.h, line.m)
    && w.endTime == if line.k == 24 then "23:59" else ClockText(line.k, line.n)
  }

  predicate Solid(s: string) { s != [] && forall c :: c in s ==> !IsSpace(c) }

  lemma {:induction false} WordOf(d: string, rest: string)
    requires forall c :: c in d ==> !IsSpace(c)
    requires rest == [] || IsSpace(rest[0])
    ensures Word(d + rest) == d
  {
    if d == [] {
      assert d + rest == rest;
    } else {
      assert d[0] in d && (d + rest)[1..] == d[1..] + rest;
      WordOf(d[1..], rest);
    }
  }

  lemma FieldsStep(d: string, rest: string)
    requires Solid(d) && (rest == [] || IsSpace(rest[0]))
    ensures Fields(d + rest) == [d] + Fields(rest)
  {
    WordOf(d, rest);
    hide Word;
    assert (d + rest)[0] == d[0] && d[0] in d;
    assert (d + rest)[|d|..] == rest;
  }

  lemma FieldsOfTwo(d: string, t: string)
    requires Solid(d) && Solid(t)
    ensures Fields(d + " " + t) == [d, t] && JoinWithSpace([d]) == d
  {
    hide Solid;
    hide Word;
    FieldsStep(d, " " + t);
    FieldsStep(t, "");
    assert d + " " + t == d + (" " + t) && t + "" == t;
    assert (" " + t)[1..] == t;
    assert Fields(" " + t) == Fields(t);
  }

  lemma TimesAreSolid(line: Line)
    requires GoodLine(line)
    ensures Solid(TimesText(line)) && ';' !in TimesText(line)
    ensures RangeIs(TimesText(line), line.h, line.m, line.k, line.n)
  {
    var a, b := ClockText(line.h, line.m), ClockText(line.k, line.n);
    ClockIsSolid(line.h, line.m);
    ClockIsSolid(line.k, line.n);
    assert IsRange(TimesText(line), a, b);
  }

  lemma ClockIsSolid(h: nat, m: nat)
    requires h <= 24 && m < 60 && (h == 24 ==> m == 0)
    ensures Solid(ClockText(h, m)) && ';' !in ClockText(h, m) && '-' !in ClockText(h, m)
    ensures Writes(TrimSpace(ClockText(h, m)), h, m)
  {
    var s := ClockText(h, m);
    assert forall c :: c in s ==> IsDigit(c) || c == ':';
    assert s[0] in s && s[4] in s;
    TrimSpaceOfTrimmed(s);
  }

  lemma DaysAreSolid(days: seq<Entry>)
    requires days != [] && forall i | 0 <= i < |days| :: GoodEntry(days[i])
    ensures Solid(Joined(days)) && ';' !in Joined(days)
  {
    hide *;
    JoinedSplits(days);
    TidyIsSolid(Joined(days));
  }

  lemma TidyIsSolid(s: string)
    requires Tidy(s)
    ensures Solid(s) && ';' !in s
  {
  }

  lemma EntryOfTwo(entry: string, d: string, t: string)
    requires Fields(entry) == [d, t] && JoinWithSpace([d]) == d
    requires DaysMask(d).Ok? && ParseTimeRange(t).Ok?
    ensures EntryMeaning(entry) == Ok(Window(DaysMask(d).value, ParseTimeRange(t).value.0, ParseTimeRange(t).value.1))
  {
    hide Fields;
    hide JoinWithSpace;
    hide DaysMask;
    hide ParseTimeRange;
    assert [d, t][..1] == [d];
  }

  lemma TimesAreRead(line: Line)
    requires GoodLine(line)
    ensures ParseTimeRange(TimesText(line)).Ok?
    ensures ParseTimeRange(TimesText(line)).value ==
            (ClockText(line.h, line.m), if line.k == 24 then "23:59" else ClockText(line.k, line.n))
  {
    hide *;
    TimesAreSolid(line);
    TimesAreReadExactlyWhen(TimesText(line));
  }

  lemma LineIsRead(line: Line)
    requires GoodLine(line)
    ensures EntryMeaning(LineText(line)).Ok? && IsWindowOf(EntryMeaning(LineText(line)).value, line)
  {
    hide Fields;
    hide JoinWithSpace;
    hide DaysMask;
    hide ParseTimeRange;
    hide Joined;
    hide TimesText;
    hide RangeIs;
    hide Solid;
    hide GoodEntry;
    hide EntrySays;
    hide EntryMeaning;
    hide HasDay;
    hide ClockText;
    var d, t := Joined(line.days), TimesText(line);
    DaysAreSolid(line.days);
    TimesAreSolid(line);
    FieldsOfTwo(d, t);
    WrittenDaysAreRead(line.days);
    TimesAreRead(line);
    EntryOfTwo(LineText(line), d, t);
  }

  /** Lines with "; " between them. */
  function Lines(lines: seq<Line>): string
    requires forall i | 0 <= i < |lines| :: GoodLine(lines[i])
  {
    if lines == [] then ""
    else if |lines| == 1 then LineText(lines[0])
    else Lines(lines[..|lines| - 1]) + "; " + LineText(lines[|lines| - 1])
  }

  lemma LineIsTrimmed(line: Line)
    requires GoodLine(line)
    ensures TrimSpace(LineText(line)) == LineText(line) == TrimSpace(" " + LineText(line))
    ensures LineText(line) != "" && ';' !in LineText(line) && ';' !in " " + LineText(line)
  {
    DaysAreSolid(line.days);
    TimesAreSolid(line);
    hide RangeIs;
    var s := LineText(line);
    hide TimesText;
    hide Joined;
    assert s[0] == Joined(line.days)[0] && Joined(line.days)[0] in Joined(line.days);
    assert s[|s| - 1] == TimesText(line)[|TimesText(line)| - 1] && TimesText(line)[|TimesText(line)| - 1] in TimesText(line);
    hide LineText;
    TrimSpaceOfTrimmed(s);
    assert (" " + s)[1..] == s;
    assert TrimLeft(" " + s) == TrimLeft(s);
  }

  lemma {:induction false} SplitAtLast(a: string, sep: char, b: string)
    requires sep !in b
    ensures Split(a + [sep] + b, sep) == Split(a, sep) + [b]
  {
    var s := a + [sep] + b;
    if a == [] {
      assert s[1..] == b;
      SplitWithoutSeparator(b, sep);
    } else {
      SplitAtLast(a[1..], sep, b);
      assert s[1..] == a[1..] + [sep] + b;
    }
  }

  lemma {:induction false} LinesSplit(lines: seq<Line>)
    requires lines != [] && forall i | 0 <= i < |lines| :: GoodLine(lines[i])
    ensures |Split(Lines(lines), ';')| == |lines|
    ensures forall i | 0 <= i < |lines| :: TrimSpace(Split(Lines(lines), ';')[i]) == LineText(lines[i])
  {
    hide GoodLine;
    hide LineText;
    hide TrimSpace;
    hide Split;
    var n := |lines| - 1;
    LineIsTrimmed(lines[n]);
    if n == 0 {
      SplitWithoutSeparator(LineText(lines[0]), ';');
    } else {
      LinesSplit(lines[..n]);
      LinesStep(lines);
      SplitAtLast(Lines(lines[..n]), ';', " " + LineText(lines[n]));
      hide Lines;
    }
  }

  lemma LinesStep(lines: seq<Line>)
    requires |lines| > 1 && forall i | 0 <= i < |lines| :: GoodLine(lines[i])
    ensures var n := |lines| - 1; Lines(lines) == Lines(lines[..n]) + [';'] + (" " + LineText(lines[n]))
  {
    hide GoodLine;
    hide LineText;
    var n := |lines| - 1;
    Semicolon(Lines(lines[..n]), LineText(lines[n]));
  }

  lemma Semicolon(a: string, b: string)
    ensures a + "; " + b == a + [';'] + (" " + b)
  {
    assert "; " + b == [';'] + (" " + b);
    assert a + "; " + b == a + ("; " + b);
  }

  lemma {:induction false} LinesAreRead(lines: seq<Line>, entries: seq<string>)
    requires (forall i | 0 <= i < |lines| :: GoodLine(lines[i])) && |entries| == |lines|
    requires forall i | 0 <= i < |lines| :: TrimSpace(entries[i]) == LineText(lines[i])
    ensures EntriesMeaning(entries).Ok? && |EntriesMeaning(entries).value| == |lines|
    ensures forall i | 0 <= i < |lines| :: IsWindowOf(EntriesMeaning(entries).value[i], lines[i])
  {
    hide GoodLine;
    hide LineText;
    hide TrimSpace;
    hide EntryMeaning;
    hide IsWindowOf;
    if lines != [] {
      var n := |lines| - 1;
      LinesAreRead(lines[..n], entries[..n]);
      LineIsRead(lines[n]);
      LineIsTrimmed(lines[n]);
    }
  }

  /**
   * Every list of windows written this way is read, line by line, as the windows that were
   * written: the days of each line, its start, and its end with 24:00 as 23:59.
   */
  lemma WrittenWindowsAreRead(lines: seq<Line>)
    requires lines != [] && forall i | 0 <= i < |lines| :: GoodLine(lines[i])
    ensures WindowsMeaning(Lines(lines)).Ok? && |WindowsMeaning(Lines(lines)).value| == |lines|
    ensures forall i | 0 <= i < |lines| :: IsWindowOf(WindowsMeaning(Lines(lines)).value[i], lines[i])
  {
    LinesSplit(lines);
    hide GoodLine;
    hide LineText;
    hide Lines;
    hide Split;
    hide IsWindowOf;
    hide TrimSpace;
    LinesAreRead(lines, Split(Lines(lines), ';'));
    hide EntriesMeaning;
  }
}
