/**
 * Tool arguments (assistant/registry.go): what a model sent, checked against a tool's
 * parameters and returned typed.
 *
 * A confirmation stores the checked arguments, and the approved run checks them again before
 * it compares hashes. It can only match what was shown because checking is a fixed point on
 * its own output.
 */
module ToolArguments {
  import opened Options
  import opened Text

  /** A decoded JSON value. A number is whole when it survives the trip through int. */
  datatype Value = Null | Bool(b: bool) | Whole(n: int) | NotWhole | Str(s: string) | Compound

  /** The raw message: nothing, null, an object, or anything else. */
  datatype Raw = Nothing | NullText | Object(fields: map<string, Value>) | NotObject

  datatype ParamType = StringParam | IntegerParam | BooleanParam

  datatype Param = Param(name: string, kind: ParamType, required: bool, maxLen: nat, choices: seq<string>,
                         date: bool, identifier: bool, min: Option<int>, max: Option<int>)

  datatype ArgError =
    | NotAnObject | UnknownArgument | Missing(name: string) | WrongType(name: string)
    | TooLong(name: string) | NotAChoice(name: string) | NotADate(name: string) | Unsafe(name: string)
    | TooSmall(name: string) | TooLarge(name: string)

  type Args = map<string, Value>

  // ---- Strings -------------------------------------------------------------------------------

  predicate SafeChar(c: char) { '!' <= c <= '~' && c !in "/\\?#%" }

  predicate SafeIdentifier(s: string) { forall i :: 0 <= i < |s| ==> SafeChar(s[i]) }

  function DaysIn(year: nat, month: nat): nat {
    if month == 2 then (if year % 4 == 0 && (year % 100 != 0 || year % 400 == 0) then 29 else 28)
    else if month in {4, 6, 9, 11} then 30 else 31
  }

  /** time.Parse("2006-01-02", s). */
  predicate LooksLikeDate(s: string) {
    && |s| == 10 && s[4] == '-' && s[7] == '-'
    && (forall i :: 0 <= i < 10 && i != 4 && i != 7 ==> IsDigit(s[i]))
    && var year := 1000 * DigitValue(s[0]) + 100 * DigitValue(s[1]) + 10 * DigitValue(s[2]) + DigitValue(s[3]);
       var month := 10 * DigitValue(s[5]) + DigitValue(s[6]);
       1 <= month <= 12 && 1 <= 10 * DigitValue(s[8]) + DigitValue(s[9]) <= DaysIn(year, month)
  }

  // ---- One parameter -----------------------------------------------------------------------------

  function CheckString(p: Param, trimmed: string): Option<ArgError> {
    if p.maxLen > 0 && ByteLength(trimmed) > p.maxLen then Some(TooLong(p.name))
    else if p.choices != [] && trimmed !in p.choices then Some(NotAChoice(p.name))
    else if p.date && !LooksLikeDate(trimmed) then Some(NotADate(p.name))
    else if p.identifier && !SafeIdentifier(trimmed) then Some(Unsafe(p.name))
    else None
  }

  /** The typed value of one parameter; None when it is left out. */
  function ValidateOne(p: Param, fields: map<string, Value>): Result<Option<Value>, ArgError> {
    if p.name !in fields || fields[p.name] == Null then (if p.required then Err(Missing(p.name)) else Ok(None))
    else
      var v := fields[p.name];
      match p.kind
      case StringParam =>
        if !v.Str? then Err(WrongType(p.name))
        else
          var s := TrimSpace(v.s);
          if s == "" then (if p.required then Err(Missing(p.name)) else Ok(None))
          else (match CheckString(p, s)
                case Some(e) => Err(e)
                case None => Ok(Some(Str(s))))
      case IntegerParam =>
        if !v.Whole? then Err(WrongType(p.name))
        else if p.min.Some? && v.n < p.min.value then Err(TooSmall(p.name))
        else if p.max.Some? && v.n > p.max.value then Err(TooLarge(p.name))
        else Ok(Some(v))
      case BooleanParam => if v.Bool? then Ok(Some(v)) else Err(WrongType(p.name))
  }

  /** What a checked value becomes, whichever parameter checked it. */
  function Cleaned(v: Value): Option<Value> {
    match v
    case Null => None
    case Str(s) => if TrimSpace(s) == "" then None else Some(Str(TrimSpace(s)))
    case _ => Some(v)
  }

  function CleanedAt(fields: map<string, Value>, name: string): Option<Value> {
    if name in fields then Cleaned(fields[name]) else None
  }

  lemma CheckedIsCleaned(p: Param, fields: map<string, Value>)
    ensures ValidateOne(p, fields).Ok? ==> ValidateOne(p, fields).value == CleanedAt(fields, p.name)
  {
    hide TrimSpace;
    hide CheckString;
  }

  lemma CleanedTwice(v: Value)
    ensures Cleaned(v).Some? ==> Cleaned(Cleaned(v).value) == Cleaned(v)
  {
    if v.Str? {
      TrimSpaceShape(v.s);
      TrimSpaceOfTrimmed(TrimSpace(v.s));
    }
  }

  /** A parameter that passed passes again on its own cleaned value, and on nothing when it was left out. */
  lemma PassesAgain(p: Param, fields: map<string, Value>, again: map<string, Value>)
    requires ValidateOne(p, fields).Ok? && CleanedAt(fields, p.name) == (if p.name in again then Some(again[p.name]) else None)
    ensures ValidateOne(p, again) == ValidateOne(p, fields)
  {
    CheckedIsCleaned(p, fields);
    if p.name in again {
      var v := fields[p.name];
      if v.Str? {
        TrimSpaceShape(v.s);
        TrimSpaceOfTrimmed(TrimSpace(v.s));
      }
    }
  }

  // ---- All of them ----------------------------------------------------------------------------------

  function Fields(raw: Raw): Option<map<string, Value>> {
    match raw
    case Nothing => Some(map[])
    case NullText => Some(map[])
    case Object(fields) => Some(fields)
    case NotObject => None
  }

  predicate Known(params: seq<Param>, name: string) {
    exists i :: 0 <= i < |params| && params[i].name == name
  }

  /** The parameters in order; the first that fails decides. */
  function Collected(params: seq<Param>, fields: map<string, Value>): Result<Args, ArgError> {
    if params == [] then Ok(map[])
    else
      var before := Collected(params[..|params| - 1], fields);
      if before.Err? then before
      else
        match ValidateOne(params[|params| - 1], fields)
        case Err(e) => Err(e)
        case Ok(None) => before
        case Ok(Some(v)) => Ok(before.value[params[|params| - 1].name := v])
  }

  function Validated(params: seq<Param>, raw: Raw): Result<Args, ArgError> {
    match Fields(raw)
    case None => Err(NotAnObject)
    case Some(fields) =>
      if exists name :: name in fields && !Known(params, name) then Err(UnknownArgument) else Collected(params, fields)
  }

  /** ValidateArgs: the loop that fills the output. */
  method ValidateArgs(params: seq<Param>, raw: Raw) returns (r: Result<Args, ArgError>)
    ensures r == Validated(params, raw)
  {
    hide ValidateOne;
    if raw.NotObject? {
      return Err(NotAnObject);
    }
    var fields := if raw.Object? then raw.fields else map[];
    if exists name :: name in fields && !Known(params, name) {
      return Err(UnknownArgument);
    }
    var out: Args := map[];
    for i := 0 to |params|
      invariant Collected(params[..i], fields) == Ok(out)
    {
      assert params[..i + 1][..i] == params[..i];
      var checked := ValidateOne(params[i], fields);
      if checked.Err? {
        CollectedStaysErr(params, fields, i + 1);
        return Err(checked.error);
      }
      if checked.value.Some? {
        out := out[params[i].name := checked.value.value];
      }
    }
    assert params[..|params|] == params;
    return Ok(out);
  }

  lemma {:induction false} CollectedStaysErr(params: seq<Param>, fields: map<string, Value>, i: nat)
    requires i <= |params| && Collected(params[..i], fields).Err?
    ensures Collected(params, fields) == Collected(params[..i], fields)
    decreases |params| - i
  {
    if i == |params| {
      assert params[..i] == params;
    } else {
      assert params[..i + 1][..i] == params[..i];
      CollectedStaysErr(params, fields, i + 1);
    }
  }

  /** The output holds exactly the cleaned value of every parameter that has one. */
  lemma {:induction false} CollectedIsCleaned(params: seq<Param>, fields: map<string, Value>)
    requires Collected(params, fields).Ok?
    ensures var out := Collected(params, fields).value;
            && (forall name :: name in out <==> Known(params, name) && CleanedAt(fields, name).Some?)
            && (forall name :: name in out ==> CleanedAt(fields, name) == Some(out[name]))
            && (forall i :: 0 <= i < |params| ==> ValidateOne(params[i], fields).Ok?)
  {
    hide ValidateOne;
    hide Cleaned;
    if params != [] {
      var n := |params| - 1;
      CollectedIsCleaned(params[..n], fields);
      CheckedIsCleaned(params[n], fields);
      forall name ensures Known(params, name) <==> Known(params[..n], name) || name == params[n].name {
        if Known(params, name) {
          var i :| 0 <= i < |params| && params[i].name == name;
          if i < n { assert params[..n][i].name == name; }
        }
        if Known(params[..n], name) {
          var i :| 0 <= i < n && params[..n][i].name == name;
          assert params[i].name == name;
        }
      }
      forall i | 0 <= i < n ensures ValidateOne(params[i], fields).Ok? {
        assert params[..n][i] == params[i];
      }
    }
  }

  /** Parameters that all pass are collected. */
  lemma {:induction false} AllPassCollects(params: seq<Param>, fields: map<string, Value>)
    requires forall i :: 0 <= i < |params| ==> ValidateOne(params[i], fields).Ok?
    ensures Collected(params, fields).Ok?
  {
    hide ValidateOne;
    if params != [] {
      AllPassCollects(params[..|params| - 1], fields);
    }
  }

  /** Checking is a fixed point on its own output. */
  lemma ValidationIsAFixedPoint(params: seq<Param>, raw: Raw)
    requires Validated(params, raw).Ok?
    ensures Validated(params, Object(Validated(params, raw).value)) == Validated(params, raw)
  {
    hide ValidateOne;
    hide Cleaned;
    var fields := Fields(raw).value;
    var out := Validated(params, raw).value;
    CollectedIsCleaned(params, fields);
    forall i | 0 <= i < |params| ensures ValidateOne(params[i], out) == ValidateOne(params[i], fields) {
      PassesAgain(params[i], fields, out);
    }
    AllPassCollects(params, out);
    CollectedIsCleaned(params, out);
    var again := Collected(params, out).value;
    forall name ensures CleanedAt(out, name) == (if name in out then Some(out[name]) else None) {
      if name in out { CleanedTwice(fields[name]); }
    }
    assert again == out;
  }

  // ---- What accepted arguments promise ----------------------------------------------------------------

  ghost predicate Conforms(p: Param, v: Value) {
    match p.kind
    case StringParam =>
      v.Str? && v.s != "" && Text.Trimmed(v.s) && (p.maxLen > 0 ==> ByteLength(v.s) <= p.maxLen)
      && (p.choices != [] ==> v.s in p.choices) && (p.date ==> LooksLikeDate(v.s)) && (p.identifier ==> SafeIdentifier(v.s))
    case IntegerParam => v.Whole? && (p.min.Some? ==> p.min.value <= v.n) && (p.max.Some? ==> v.n <= p.max.value)
    case BooleanParam => v.Bool?
  }

  /**
   * Accepted arguments name only known parameters, hold every required one, and meet each
   * parameter's type and bounds; and nothing the model sent was dropped except a null or a
   * blank optional string.
   */
  lemma AcceptedArgumentsConform(params: seq<Param>, raw: Raw)
    requires Validated(params, raw).Ok?
    ensures var out := Validated(params, raw).value;
            && (forall name :: name in Fields(raw).value ==> Known(params, name))
            && (forall name :: name in out ==> Known(params, name) && name in Fields(raw).value)
            && (forall name :: name in Fields(raw).value ==> (name in out <==> Cleaned(Fields(raw).value[name]).Some?))
            && forall i :: 0 <= i < |params| ==>
                 (params[i].required ==> params[i].name in out)
                 && (params[i].name in out ==> Conforms(params[i], out[params[i].name]))
  {
    hide CheckString;
    hide TrimSpace;
    var fields := Fields(raw).value;
    var out := Validated(params, raw).value;
    CollectedIsCleaned(params, fields);
    forall i | 0 <= i < |params|
      ensures params[i].required ==> params[i].name in out
      ensures params[i].name in out ==> Conforms(params[i], out[params[i].name])
    {
      OneConforms(params[i], fields);
      CheckedIsCleaned(params[i], fields);
      assert Known(params, params[i].name);
    }
  }

  lemma OneConforms(p: Param, fields: map<string, Value>)
    requires ValidateOne(p, fields).Ok?
    ensures p.required ==> ValidateOne(p, fields).value.Some?
    ensures ValidateOne(p, fields).value.Some? ==> Conforms(p, ValidateOne(p, fields).value.value)
  {
    hide LooksLikeDate;
    hide SafeIdentifier;
    hide ByteLength;
    if p.name in fields && fields[p.name].Str? {
      TrimSpaceShape(fields[p.name].s);
    }
  }

  // ---- Which arguments are accepted ------------------------------------------------------------------

  /** Not sent, null, or a blank text where a text is wanted. */
  predicate LeftOut(p: Param, fields: map<string, Value>) {
    || p.name !in fields || fields[p.name] == Null
    || (p.kind == StringParam && fields[p.name].Str? && forall c :: c in fields[p.name].s ==> IsSpace(c))
  }

  /** A value as it is kept: a text without the blanks around it, anything else as it is. */
  function Kept(v: Value): Value {
    if v.Str? then Str(TrimSpace(v.s)) else v
  }

  const MONTH_LENGTHS := [31, 28, 31, 30, 31, 30, 31, 31, 30, 31, 30, 31]

  predicate LeapYear(year: nat) { year % 400 == 0 || (year % 4 == 0 && year % 100 != 0) }

  predicate CalendarDay(year: nat, month: nat, day: nat) {
    && year < 10000 && 1 <= month <= 12 && 1 <= day
    && day <= MONTH_LENGTHS[month - 1] + (if month == 2 && LeapYear(year) then 1 else 0)
  }

  function TwoDigits(n: nat): string
    requires n < 100
  {
    [DigitChar(n / 10), DigitChar(n % 10)]
  }

  function DateText(year: nat, month: nat, day: nat): string
    requires year < 10000 && month < 100 && day < 100
  {
    TwoDigits(year / 100) + TwoDigits(year % 100) + "-" + TwoDigits(month) + "-" + TwoDigits(day)
  }

  /** Written as a day of the calendar. */
  ghost predicate IsDate(s: string) {
    exists year, month, day :: CalendarDay(year, month, day) && s == DateText(year, month, day)
  }

  lemma DateIsAcceptedExactlyWhen(s: string)
    ensures LooksLikeDate(s) <==> IsDate(s)
  {
    if LooksLikeDate(s) { DateIsWritten(s); }
    forall year, month, day | CalendarDay(year, month, day) && s == DateText(year, month, day) ensures LooksLikeDate(s) {
      WrittenIsDate(year, month, day);
    }
  }

  lemma DaysInMeans(year: nat, month: nat)
    requires 1 <= month <= 12
    ensures DaysIn(year, month) == MONTH_LENGTHS[month - 1] + (if month == 2 && LeapYear(year) then 1 else 0)
    ensures DaysIn(year, month) <= 31
  {
  }

  lemma TwoDigitsRead(a: char, b: char)
    requires IsDigit(a) && IsDigit(b)
    ensures var n := 10 * DigitValue(a) + DigitValue(b); n < 100 && TwoDigits(n) == [a, b]
  {
  }

  lemma DateIsWritten(s: string)
    requires LooksLikeDate(s)
    ensures IsDate(s)
  {
    assert IsDigit(s[0]) && IsDigit(s[1]) && IsDigit(s[2]) && IsDigit(s[3]) && IsDigit(s[5]) && IsDigit(s[6]) && IsDigit(s[8]) && IsDigit(s[9]);
    TwoDigitsRead(s[0], s[1]);
    TwoDigitsRead(s[2], s[3]);
    TwoDigitsRead(s[5], s[6]);
    TwoDigitsRead(s[8], s[9]);
    hide TwoDigits;
    var c, y := 10 * DigitValue(s[0]) + DigitValue(s[1]), 10 * DigitValue(s[2]) + DigitValue(s[3]);
    var year, month, day := 100 * c + y, 10 * DigitValue(s[5]) + DigitValue(s[6]), 10 * DigitValue(s[8]) + DigitValue(s[9]);
    DaysInMeans(year, month);
    hide DaysIn;
    assert year / 100 == c && year % 100 == y;
    assert s == [s[0], s[1]] + [s[2], s[3]] + "-" + [s[5], s[6]] + "-" + [s[8], s[9]];
    assert CalendarDay(year, month, day) && s == DateText(year, month, day);
  }

  lemma WrittenIsDate(year: nat, month: nat, day: nat)
    requires CalendarDay(year, month, day)
    ensures month < 100 && day < 100 && LooksLikeDate(DateText(year, month, day))
  {
    DaysInMeans(year, month);
    hide DaysIn;
    var s := DateText(year, month, day);
    var c, y := year / 100, year % 100;
    assert s == [DigitChar(c / 10), DigitChar(c % 10), DigitChar(y / 10), DigitChar(y % 10), '-',
                 DigitChar(month / 10), DigitChar(month % 10), '-', DigitChar(day / 10), DigitChar(day % 10)];
    assert 100 * (10 * (c / 10) + c % 10) + (10 * (y / 10) + y % 10) == year;
  }

  predicate OutsideIdentifier(c: char) {
    c <= ' ' || c > '~' || c == '/' || c == '\\' || c == '?' || c == '#' || c == '%'
  }

  lemma SafeMeans(s: string)
    ensures SafeIdentifier(s) <==> forall c :: c in s ==> !OutsideIdentifier(c)
  {
    assert forall c :: c in "/\\?#%" <==> (c == '/' || c == '\\' || c == '?' || c == '#' || c == '%');
    assert forall c :: SafeChar(c) <==> !OutsideIdentifier(c);
    hide SafeChar;
    hide OutsideIdentifier;
    if SafeIdentifier(s) {
      forall c | c in s ensures SafeChar(c) {
        var i :| 0 <= i < |s| && s[i] == c;
        assert SafeChar(s[i]);
      }
    }
    if forall c :: c in s ==> SafeChar(c) {
      forall i | 0 <= i < |s| ensures SafeChar(s[i]) {}
    }
  }

  /** Why one parameter refuses what was sent, in the order the reasons go. */
  ghost predicate Refuses(p: Param, fields: map<string, Value>, error: ArgError) {
    if LeftOut(p, fields) then p.required && error == Missing(p.name)
    else
      var v := Kept(fields[p.name]);
      match p.kind
      case StringParam =>
        if !v.Str? then error == WrongType(p.name)
        else if p.maxLen > 0 && ByteLength(v.s) > p.maxLen then error == TooLong(p.name)
        else if p.choices != [] && v.s !in p.choices then error == NotAChoice(p.name)
        else if p.date && !IsDate(v.s) then error == NotADate(p.name)
        else p.identifier && (exists c :: c in v.s && OutsideIdentifier(c)) && error == Unsafe(p.name)
      case IntegerParam =>
        if !v.Whole? then error == WrongType(p.name)
        else if p.min.Some? && v.n < p.min.value then error == TooSmall(p.name)
        else p.max.Some? && v.n > p.max.value && error == TooLarge(p.name)
      case BooleanParam => !v.Bool? && error == WrongType(p.name)
  }

  lemma OneIsChecked(p: Param, fields: map<string, Value>)
    ensures forall error :: ValidateOne(p, fields) == Err(error) <==> Refuses(p, fields, error)
    ensures ValidateOne(p, fields).Err? ==> Refuses(p, fields, ValidateOne(p, fields).error)
    ensures ValidateOne(p, fields).Ok? ==> ValidateOne(p, fields).value == if LeftOut(p, fields) then None else Some(Kept(fields[p.name]))
  {
    if p.name in fields && fields[p.name].Str? {
      var s := fields[p.name].s;
      TrimsToNothing(s);
      SafeMeans(TrimSpace(s));
      DateIsAcceptedExactlyWhen(TrimSpace(s));
    }
    hide TrimSpace;
    hide LooksLikeDate;
    hide IsDate;
    hide SafeIdentifier;
    hide OutsideIdentifier;
    hide ByteLength;
  }

  /**
   * Arguments are accepted exactly when they are an object, every one is known, and no
   * parameter refuses what was sent for it. Then the output has exactly the parameters that
   * were not left out, each as it is kept.
   */
  lemma AcceptedExactlyWhen(params: seq<Param>, raw: Raw)
    ensures var fields := if raw.Object? then raw.fields else map[];
            Validated(params, raw).Ok? <==>
              && raw != NotObject && (forall name :: name in fields ==> exists i :: 0 <= i < |params| && params[i].name == name)
              && forall i, error | 0 <= i < |params| :: !Refuses(params[i], fields, error)
    ensures Validated(params, raw).Ok? ==>
              var (out, fields) := (Validated(params, raw).value, if raw.Object? then raw.fields else map[]);
              && (forall name :: name in out ==> exists i :: 0 <= i < |params| && params[i].name == name)
              && forall i | 0 <= i < |params| ::
                   if LeftOut(params[i], fields) then params[i].name !in out
                   else params[i].name in out && out[params[i].name] == Kept(fields[params[i].name])
  {
    var fields: map<string, Value> := if raw.Object? then raw.fields else map[];
    hide LeftOut;
    hide Kept;
    hide ValidateOne;
    hide Refuses;
    hide CleanedAt;
    forall i | 0 <= i < |params|
      ensures forall error :: ValidateOne(params[i], fields) == Err(error) <==> Refuses(params[i], fields, error)
      ensures ValidateOne(params[i], fields).Err? ==> Refuses(params[i], fields, ValidateOne(params[i], fields).error)
      ensures ValidateOne(params[i], fields).Ok? ==>
                ValidateOne(params[i], fields).value
                == (if LeftOut(params[i], fields) then None else Some(Kept(fields[params[i].name])))
                == CleanedAt(fields, params[i].name)
    {
      OneIsChecked(params[i], fields);
      CheckedIsCleaned(params[i], fields);
    }
    if Collected(params, fields).Ok? {
      CollectedIsCleaned(params, fields);
      forall i | 0 <= i < |params| ensures Known(params, params[i].name) {}
    } else if forall i, error | 0 <= i < |params| :: !Refuses(params[i], fields, error) {
      AllPassCollects(params, fields);
    }
  }

  lemma {:induction false} FirstRefusal(params: seq<Param>, fields: map<string, Value>)
    requires Collected(params, fields).Err?
    ensures exists i | 0 <= i < |params| ::
              && Refuses(params[i], fields, Collected(params, fields).error)
              && forall j, error | 0 <= j < i :: !Refuses(params[j], fields, error)
  {
    hide ValidateOne;
    hide Refuses;
    var n := |params| - 1;
    if Collected(params[..n], fields).Err? {
      FirstRefusal(params[..n], fields);
    } else {
      OneIsChecked(params[n], fields);
      CollectedIsCleaned(params[..n], fields);
      forall j | 0 <= j < n ensures forall error :: !Refuses(params[j], fields, error) {
        OneIsChecked(params[j], fields);
        assert params[..n][j] == params[j];
      }
    }
  }

  /** What the model is told: not an object, then an unknown argument, then the first parameter that refuses. */
  lemma FirstRefusalDecides(params: seq<Param>, raw: Raw)
    requires Validated(params, raw).Err?
    ensures var fields := if raw.Object? then raw.fields else map[];
            var error := Validated(params, raw).error;
            if raw == NotObject then error == NotAnObject
            else if exists name :: name in fields && forall i :: 0 <= i < |params| ==> params[i].name != name then error == UnknownArgument
            else exists i | 0 <= i < |params| ::
                   Refuses(params[i], fields, error) && forall j, other | 0 <= j < i :: !Refuses(params[j], fields, other)
  {
    var fields: map<string, Value> := if raw.Object? then raw.fields else map[];
    hide Refuses;
    if Collected(params, fields).Err? { FirstRefusal(params, fields); }
  }
}
