/**
 * The filter builder inside ListEvents (database/events.go).
 *
 * A clause is the text the code builds beside a tag for the column and comparison it is built
 * from. Which arguments it uses is read from the text, by taking the numbers after each "$";
 * what it compares them with comes from the tag. The theorem is that for every combination of
 * filters the clauses together mean the filters together, exactly when the subquery for a
 * device serial finds one row at most.
 */
module EventQueries {
  import opened Options
  import opened Text
  import opened LikePattern
  import opened Placeholders
  import Provisioning
  import ProvisioningRuns

  const DEFAULT_LIMIT := 50
  const MAX_LIMIT := 500

  /** One filter of a query, by the column it tests. */
  datatype Test =
    | CompanyIs | SiteIn | SiteIs | DeviceIs | PersonIs | ExternalIdIs | TypeIs | ApplicationIs | DecisionIs | DirectionIs
    | From | Until | Search

  datatype Clause = Clause(test: Test, text: string)

  datatype Query = Query(limit: int, offset: int, scoped: bool, siteIds: set<int>, siteId: string, deviceSerial: string,
                         externalId: string, personId: string, eventType: string, application: string, decision: string,
                         direction: string, from: Option<int>, until: Option<int>, term: string)

  /** An event beside the person it names. */
  datatype Event = Event(companyId: int, siteId: Option<int>, deviceId: Option<int>, personId: Option<int>,
                         subjectExternalId: Option<string>, eventType: string, application: Option<string>,
                         decision: Option<string>, direction: Option<string>, occurredAt: int,
                         personExternalId: Option<string>, personName: Option<string>)

  /** A row of devices with the company of its site. A retired row stays; only live rows have unique serials. */
  datatype DeviceRow = DeviceRow(serial: string, companyId: int)

  /** What the subqueries look up inside a company: public ids, which are unique, and device rows by serial. */
  datatype Directory = Directory(sites: map<(string, int), int>, devices: map<int, DeviceRow>, people: map<(string, int), int>)

  function UpperChar(c: char): char { if 'a' <= c <= 'z' then (c as int - 32) as char else c }

  function Upper(s: string): string { seq(|s|, i requires 0 <= i < |s| => UpperChar(s[i])) }

  predicate HexDigit(c: char) { '0' <= c <= '9' || 'a' <= c <= 'f' || 'A' <= c <= 'F' }

  /** Thirty-two hex digits in five groups. */
  predicate IsUuid(s: string) {
    |s| == 36 && s[8] == s[13] == s[18] == s[23] == '-'
    && forall i | 0 <= i < 36 && i !in {8, 13, 18, 23} :: '0' <= s[i] <= '9' || 'a' <= s[i] <= 'f' || 'A' <= s[i] <= 'F'
  }

  /** A text with its small letters made capitals. */
  predicate InCapitals(u: string, s: string) {
    |u| == |s| && forall i :: 0 <= i < |s| ==> u[i] == if 'a' <= s[i] <= 'z' then (s[i] as int - 32) as char else s[i]
  }

  predicate SomeInCapitals(u: Option<string>, s: string) { u.Some? && InCapitals(u.value, s) }

  lemma UpperMeans(u: string, s: string)
    ensures u == Upper(s) <==> InCapitals(u, s)
  {
  }

  lemma UuidMeans(s: string)
    ensures LooksLikeUuid(s) <==> IsUuid(s)
  {
    if LooksLikeUuid(s) {
      assert forall i :: 0 <= i < 36 ==> if i in {8, 13, 18, 23} then s[i] == '-' else HexDigit(s[i]);
    }
  }

  predicate LooksLikeUuid(s: string) {
    |s| == 36 && forall i :: 0 <= i < 36 ==> if i in {8, 13, 18, 23} then s[i] == '-' else HexDigit(s[i])
  }

  // ---- Clause texts -------------------------------------------------------------------------

  const SUBSELECT := " = (SELECT id FROM "
  const BY_PUBLIC_ID := " WHERE public_id = "
  const DEVICE_SELECT := " = (SELECT d.id "
  const FROM_DEVICES := "FROM devices d "
  const JOIN_SITES := "JOIN sites s "
  const ON_SITE := "ON s.id = d.site_id "
  const BY_SERIAL := "WHERE d.serial_number = "

  /** The column a clause tests. */
  function Column(test: Test): string {
    match test
    case CompanyIs => "e.company_id"
    case SiteIn => "e.site_id"
    case SiteIs => "e.site_id"
    case DeviceIs => "e.device_id"
    case PersonIs => "e.person_id"
    case ExternalIdIs => "e.subject_external_id"
    case TypeIs => "e.event_type"
    case ApplicationIs => "e.application"
    case DecisionIs => "e.decision"
    case DirectionIs => "e.direction"
    case From => "e.occurred_at"
    case Until => "e.occurred_at"
    case Search => "(e.subject_external_id"
  }

  /** The text between the column and the "?". */
  function Operator(test: Test): string {
    match test
    case SiteIn => " = ANY("
    case SiteIs => SUBSELECT + "sites" + BY_PUBLIC_ID
    case DeviceIs => DEVICE_SELECT + FROM_DEVICES + JOIN_SITES + ON_SITE + BY_SERIAL
    case PersonIs => SUBSELECT + "people" + BY_PUBLIC_ID
    case From => " >= "
    case Until => " < "
    case Search => " ILIKE "
    case _ => " = "
  }

  function Before(test: Test): string { Column(test) + Operator(test) }

  /** The subqueries scope themselves to the company, which is always $1. */
  function Tail(test: Test): string {
    match test
    case SiteIn => ")"
    case SiteIs => UUID_AND + "$1)"
    case DeviceIs => SITE_AND + "$1)"
    case PersonIs => UUID_AND + "$1)"
    case _ => ""
  }

  const UUID_AND := "::uuid AND company_id = "
  const SITE_AND := " AND s.company_id = "
  const OR_EXTERNAL := " ESCAPE '\\' OR p.external_id ILIKE "
  const OR_NAME := " ESCAPE '\\' OR p.full_name ILIKE "
  const SEARCH_END := " ESCAPE '\\')"

  /** The clause a filter compiles to when its value is the n-th argument. */
  function Compile(test: Test, n: nat): Clause {
    if test == Search then
      var p := "$" + Itoa(n);
      Clause(test, Before(test) + p + OR_EXTERNAL + p + OR_NAME + p + SEARCH_END)
    else Clause(test, ReplaceFirst(Before(test) + "?" + Tail(test), "$" + Itoa(n)))
  }

  /** The clauses as they are sent, written out around their parameter. */
  function ClauseText(test: Test, p: string): string {
    match test
    case CompanyIs => "e.company_id" + " = " + p
    case SiteIn => "e.site_id" + " = ANY(" + p + ")"
    case SiteIs => "e.site_id" + (" = (SELECT id FROM " + "sites" + " WHERE public_id = ") + p + ("::uuid AND company_id = " + "$1)")
    case DeviceIs =>
      "e.device_id" + (" = (SELECT d.id " + "FROM devices d " + "JOIN sites s " + "ON s.id = d.site_id " + "WHERE d.serial_number = ")
      + p + (" AND s.company_id = " + "$1)")
    case PersonIs => "e.person_id" + (" = (SELECT id FROM " + "people" + " WHERE public_id = ") + p + ("::uuid AND company_id = " + "$1)")
    case ExternalIdIs => "e.subject_external_id" + " = " + p
    case TypeIs => "e.event_type" + " = " + p
    case ApplicationIs => "e.application" + " = " + p
    case DecisionIs => "e.decision" + " = " + p
    case DirectionIs => "e.direction" + " = " + p
    case From => "e.occurred_at" + " >= " + p
    case Until => "e.occurred_at" + " < " + p
    case Search =>
      "(e.subject_external_id" + " ILIKE " + p + " ESCAPE '\\' OR p.external_id ILIKE " + p
      + " ESCAPE '\\' OR p.full_name ILIKE " + p + " ESCAPE '\\')"
  }

  /** Each filter compiles to its own text, with its own number in it. */
  lemma CompiledText(test: Test, n: nat)
    ensures Compile(test, n).text == ClauseText(test, "$" + Itoa(n))
  {
    hide Itoa;
    var p := "$" + Itoa(n);
    NoMarks(test);
    ReplaceFirstAt(Before(test), Tail(test), p);
    hide ReplaceFirst;
    hide Plain;
    assert Before(test) + p + "" == Before(test) + p;
  }

  predicate Scoping(test: Test) { test == SiteIs || test == DeviceIs || test == PersonIs }

  /** The numbers a compiled clause names: its own, three times in a search, and the company's in a subquery. */
  lemma CompiledRefs(test: Test, n: nat)
    ensures Refs(Compile(test, n).text) == if test == Search then [n, n, n] else if Scoping(test) then [n, 1] else [n]
  {
    if test == Search {
      SearchRefs(n);
    } else {
      NoMarks(test);
      CompiledClauseRefs(Before(test), n, Tail(test));
      TailRefs(test);
    }
  }

  predicate Plain(s: string) { '?' !in s && '$' !in s }

  lemma PlainConcat(a: string, b: string)
    requires Plain(a) && Plain(b)
    ensures Plain(a + b)
  {
  }

  lemma PlainIds()
    ensures Plain("e.company_id") && Plain("e.site_id") && Plain("e.device_id") && Plain("e.person_id")
  {
  }

  lemma PlainExternalId()
    ensures Plain("e.subject_external_id") && Plain("(e.subject_external_id")
  {
  }

  lemma PlainOthers()
    ensures Plain("e.event_type") && Plain("e.application") && Plain("e.decision")
  {
  }

  lemma PlainRest()
    ensures Plain("e.direction") && Plain("e.occurred_at")
  {
  }

  lemma PlainColumn(test: Test)
    ensures Plain(Column(test))
  {
    PlainIds();
    PlainExternalId();
    PlainOthers();
    PlainRest();
    hide Plain;
  }

  lemma PlainPieces()
    ensures Plain(SUBSELECT) && Plain(BY_PUBLIC_ID) && Plain("sites") && Plain("people")
  {
  }

  lemma PlainDevicePieces()
    ensures Plain(DEVICE_SELECT) && Plain(FROM_DEVICES)
  {
  }

  lemma PlainJoinPieces()
    ensures Plain(JOIN_SITES) && Plain(ON_SITE)
  {
  }

  lemma PlainSerial()
    ensures Plain(BY_SERIAL)
  {
  }

  lemma PlainShort()
    ensures Plain(" = ANY(") && Plain(" >= ") && Plain(" < ") && Plain(" ILIKE ") && Plain(" = ")
  {
  }

  lemma PlainOperator(test: Test)
    ensures Plain(Operator(test))
  {
    PlainPieces();
    PlainDevicePieces();
    PlainJoinPieces();
    PlainSerial();
    PlainShort();
    hide Plain;
    PlainConcat(SUBSELECT, "sites");
    PlainConcat(SUBSELECT + "sites", BY_PUBLIC_ID);
    PlainConcat(SUBSELECT, "people");
    PlainConcat(SUBSELECT + "people", BY_PUBLIC_ID);
    PlainConcat(DEVICE_SELECT, FROM_DEVICES);
    PlainConcat(DEVICE_SELECT + FROM_DEVICES, JOIN_SITES);
    PlainConcat(DEVICE_SELECT + FROM_DEVICES + JOIN_SITES, ON_SITE);
    PlainConcat(DEVICE_SELECT + FROM_DEVICES + JOIN_SITES + ON_SITE, BY_SERIAL);
  }

  lemma NoMarks(test: Test)
    ensures Plain(Before(test))
    ensures Tail(test) == [] || !IsDigit(Tail(test)[0])
  {
    PlainColumn(test);
    PlainOperator(test);
    hide Plain;
    hide Column;
    hide Operator;
    PlainConcat(Column(test), Operator(test));
  }

  lemma TailRefs(test: Test)
    ensures Refs(Tail(test)) == if Scoping(test) then [1] else []
  {
    hide Refs;
    CompanyRefs(UUID_AND);
    CompanyRefs(SITE_AND);
    RefsOfText("");
    RefsOfText(")");
  }

  lemma CompanyRefs(a: string)
    requires a == UUID_AND || a == SITE_AND
    ensures Refs(a + "$1)") == [1]
  {
    PlainTails();
    hide Refs;
    RefsOfParameter(a, 1, ")");
    RefsOfText(")");
    OneIsOne();
    assert a + "$" + "1" + ")" == a + "$1)";
  }

  lemma OneIsOne()
    ensures Itoa(1) == "1"
  {
  }

  lemma PlainTails()
    ensures '$' !in UUID_AND && '$' !in SITE_AND
  {
  }

  lemma PlainOr()
    ensures '$' !in OR_EXTERNAL && '$' !in OR_NAME && '$' !in SEARCH_END
    ensures !IsDigit(OR_EXTERNAL[0]) && !IsDigit(OR_NAME[0]) && !IsDigit(SEARCH_END[0])
  {
  }

  lemma SearchRefs(n: nat)
    ensures Refs(Compile(Search, n).text) == [n, n, n]
  {
    hide Refs;
    hide Itoa;
    PlainOr();
    NoMarks(Search);
    hide Column;
    hide Operator;
    RefsThreeTimes(Before(Search), OR_EXTERNAL, OR_NAME, SEARCH_END, n);
  }

  // ---- What a clause means to the database -----------------------------------------------------

  function Lookup(table: map<(string, int), int>, key: string, companyId: int): Option<int> {
    if (key, companyId) in table then Some(table[(key, companyId)]) else None
  }

  /** The rows of a serial in a company, deleted ones included. */
  function DevicesOf(dir: Directory, serial: string, companyId: int): set<int> {
    set id | id in dir.devices && dir.devices[id] == DeviceRow(serial, companyId)
  }

  /** NULL equals nothing. */
  predicate SameId(a: Option<int>, b: Option<int>) { a.Some? && a == b }

  predicate Is(a: Option<string>, s: string) { a == Some(s) }

  predicate Holds(c: Clause, args: seq<Val>, e: Event, dir: Directory, fold: char -> char) {
    var vals := Named(Refs(c.text), args);
    vals.Some? && Truth(c.test, vals.value, e, dir, fold)
  }

  /** A subquery used as a value fails the whole query when it finds more than one row. */
  predicate Fails(c: Clause, args: seq<Val>, dir: Directory) {
    var vals := Named(Refs(c.text), args);
    c.test == DeviceIs && vals.Some? && Subquery(vals.value) && |DevicesOf(dir, vals.value[0].s, vals.value[1].i)| > 1
  }

  ghost predicate Answered(where: seq<Clause>, args: seq<Val>, dir: Directory) {
    forall i :: 0 <= i < |where| ==> !Fails(where[i], args, dir)
  }

  /** A clause of a query that is answered; a subquery that finds nothing is NULL. */
  predicate Truth(test: Test, vals: seq<Val>, e: Event, dir: Directory, fold: char -> char) {
    match test
    case CompanyIs => vals == [IntVal(e.companyId)]
    case SiteIn => |vals| == 1 && vals[0].SetVal? && e.siteId.Some? && e.siteId.value in vals[0].ids
    case SiteIs => Subquery(vals) && SameId(e.siteId, Lookup(dir.sites, ToLower(vals[0].s), vals[1].i))
    case DeviceIs => Subquery(vals) && e.deviceId.Some? && DevicesOf(dir, vals[0].s, vals[1].i) == {e.deviceId.value}
    case PersonIs => Subquery(vals) && SameId(e.personId, Lookup(dir.people, ToLower(vals[0].s), vals[1].i))
    case ExternalIdIs => Text1(vals) && Is(e.subjectExternalId, vals[0].s)
    case TypeIs => Text1(vals) && e.eventType == vals[0].s
    case ApplicationIs => Text1(vals) && Is(e.application, vals[0].s)
    case DecisionIs => Text1(vals) && Is(e.decision, vals[0].s)
    case DirectionIs => Text1(vals) && Is(e.direction, vals[0].s)
    case From => |vals| == 1 && vals[0].IntVal? && e.occurredAt >= vals[0].i
    case Until => |vals| == 1 && vals[0].IntVal? && e.occurredAt < vals[0].i
    case Search =>
      |vals| == 3 && vals[0].StrVal? && vals[1].StrVal? && vals[2].StrVal?
      && (Found(fold, e.subjectExternalId, vals[0].s) || Found(fold, e.personExternalId, vals[1].s)
          || Found(fold, e.personName, vals[2].s))
  }

  predicate Subquery(vals: seq<Val>) { |vals| == 2 && vals[0].StrVal? && vals[1].IntVal? }

  predicate Text1(vals: seq<Val>) { |vals| == 1 && vals[0].StrVal? }

  ghost predicate AllHold(where: seq<Clause>, args: seq<Val>, e: Event, dir: Directory, fold: char -> char) {
    forall i :: 0 <= i < |where| ==> Holds(where[i], args, e, dir, fold)
  }

  // ---- What the query asks for ------------------------------------------------------------------

  ghost predicate Mentions(fold: char -> char, a: Option<string>, term: string) { a.Some? && Occurs(fold, term, a.value) }

  ghost predicate WantedPlace(q: Query, companyId: int, e: Event, dir: Directory) {
    && (q.scoped ==> e.siteId.Some? && e.siteId.value in q.siteIds)
    && (q.siteId != "" ==> SameId(e.siteId, Lookup(dir.sites, ToLower(q.siteId), companyId)))
    && (q.deviceSerial != "" ==> e.deviceId.Some? && e.deviceId.value in DevicesOf(dir, q.deviceSerial, companyId))
    && (q.personId != "" ==> SameId(e.personId, Lookup(dir.people, ToLower(q.personId), companyId)))
  }

  ghost predicate WantedText(q: Query, e: Event) {
    && (q.externalId != "" ==> e.subjectExternalId == Some(q.externalId))
    && (q.eventType != "" ==> InCapitals(e.eventType, q.eventType))
    && (q.application != "" ==> SomeInCapitals(e.application, q.application))
    && (q.decision != "" ==> SomeInCapitals(e.decision, q.decision))
    && (q.direction != "" ==> SomeInCapitals(e.direction, q.direction))
  }

  ghost predicate WantedTime(q: Query, e: Event, fold: char -> char) {
    && (q.from.Some? ==> q.from.value <= e.occurredAt)
    && (q.until.Some? ==> e.occurredAt < q.until.value)
    && (TrimSpace(q.term) != "" ==>
          Mentions(fold, e.subjectExternalId, TrimSpace(q.term)) || Mentions(fold, e.personExternalId, TrimSpace(q.term))
          || Mentions(fold, e.personName, TrimSpace(q.term)))
  }

  /** The events a query is for, in the query's own words. */
  ghost predicate Wanted(q: Query, companyId: int, e: Event, dir: Directory, fold: char -> char) {
    e.companyId == companyId && WantedPlace(q, companyId, e, dir) && WantedText(q, e) && WantedTime(q, e, fold)
  }

  /** No events can be meant: no sites granted, or an id that is not one. */
  predicate AsksForNothing(q: Query) {
    (q.scoped && q.siteIds == {}) || (q.siteId != "" && !IsUuid(q.siteId)) || (q.personId != "" && !IsUuid(q.personId))
  }

  // ---- The builder --------------------------------------------------------------------------------

  function When(fs: seq<(Test, Val)>, on: bool, test: Test, value: Val): seq<(Test, Val)> {
    if on then fs + [(test, value)] else fs
  }

  function PlaceFilters(q: Query): seq<(Test, Val)> {
    var sites := When([], q.scoped, SiteIn, SetVal(q.siteIds));
    var site := When(sites, q.siteId != "", SiteIs, StrVal(q.siteId));
    var device := When(site, q.deviceSerial != "", DeviceIs, StrVal(q.deviceSerial));
    When(device, q.personId != "", PersonIs, StrVal(q.personId))
  }

  function TextFilters(fs: seq<(Test, Val)>, q: Query): seq<(Test, Val)> {
    var external := When(fs, q.externalId != "", ExternalIdIs, StrVal(q.externalId));
    var kind := When(external, q.eventType != "", TypeIs, StrVal(Upper(q.eventType)));
    var application := When(kind, q.application != "", ApplicationIs, StrVal(Upper(q.application)));
    var decision := When(application, q.decision != "", DecisionIs, StrVal(Upper(q.decision)));
    When(decision, q.direction != "", DirectionIs, StrVal(Upper(q.direction)))
  }

  function TimeFilters(fs: seq<(Test, Val)>, q: Query): seq<(Test, Val)> {
    var from := When(fs, q.from.Some?, From, IntVal(if q.from.Some? then q.from.value else 0));
    var until := When(from, q.until.Some?, Until, IntVal(if q.until.Some? then q.until.value else 0));
    When(until, TrimSpace(q.term) != "", Search, StrVal(SearchPattern(TrimSpace(q.term))))
  }

  /** The filters of a query with their values, in the order they are added. */
  function Filters(q: Query): seq<(Test, Val)> { TimeFilters(TextFilters(PlaceFilters(q), q), q) }

  /** where and args hold the company's clause and then each filter's, in step. */
  ghost predicate Built(where: seq<Clause>, args: seq<Val>, companyId: int, fs: seq<(Test, Val)>) {
    && |where| == |args| == |fs| + 1
    && where[0] == Compile(CompanyIs, 1) && args[0] == IntVal(companyId)
    && forall i :: 0 <= i < |fs| ==> where[i + 1] == Compile(fs[i].0, i + 2) && args[i + 1] == fs[i].1
  }

  class Builder {
    var where: seq<Clause>
    var args: seq<Val>

    constructor (companyId: int)
      ensures Built(where, args, companyId, [])
    {
      where, args := [Compile(CompanyIs, 1)], [IntVal(companyId)];
    }

    /** The add closure: the value becomes the last argument and the clause names its position. */
    method Add(test: Test, value: Val, ghost companyId: int, ghost fs: seq<(Test, Val)>)
      requires Built(where, args, companyId, fs)
      modifies this
      ensures Built(where, args, companyId, fs + [(test, value)])
    {
      hide Compile;
      args := args + [value];
      where := where + [Compile(test, |args|)];
    }

    /** The filters that say where and who; false when the page is empty without asking the database. */
    method AddPlaces(q: Query, ghost companyId: int) returns (ask: bool)
      requires Built(where, args, companyId, [])
      modifies this
      ensures ask <==> !AsksForNothing(q)
      ensures ask ==> Built(where, args, companyId, PlaceFilters(q))
    {
      hide Built;
      UuidMeans(q.siteId);
      UuidMeans(q.personId);
      hide LooksLikeUuid;
      hide IsUuid;
      ghost var fs: seq<(Test, Val)> := [];
      if q.scoped {
        if q.siteIds == {} {
          return false;
        }
        Add(SiteIn, SetVal(q.siteIds), companyId, fs);
        fs := fs + [(SiteIn, SetVal(q.siteIds))];
      }
      if q.siteId != "" {
        if !LooksLikeUuid(q.siteId) {
          return false;
        }
        Add(SiteIs, StrVal(q.siteId), companyId, fs);
        fs := fs + [(SiteIs, StrVal(q.siteId))];
      }
      if q.deviceSerial != "" {
        Add(DeviceIs, StrVal(q.deviceSerial), companyId, fs);
        fs := fs + [(DeviceIs, StrVal(q.deviceSerial))];
      }
      if q.personId != "" {
        if !LooksLikeUuid(q.personId) {
          return false;
        }
        Add(PersonIs, StrVal(q.personId), companyId, fs);
        fs := fs + [(PersonIs, StrVal(q.personId))];
      }
      return true;
    }

    method AddTexts(q: Query, ghost companyId: int, ghost before: seq<(Test, Val)>)
      requires Built(where, args, companyId, before)
      modifies this
      ensures Built(where, args, companyId, TextFilters(before, q))
    {
      hide Built;
      hide Upper;
      ghost var fs := before;
      if q.externalId != "" {
        Add(ExternalIdIs, StrVal(q.externalId), companyId, fs);
        fs := fs + [(ExternalIdIs, StrVal(q.externalId))];
      }
      if q.eventType != "" {
        Add(TypeIs, StrVal(Upper(q.eventType)), companyId, fs);
        fs := fs + [(TypeIs, StrVal(Upper(q.eventType)))];
      }
      if q.application != "" {
        Add(ApplicationIs, StrVal(Upper(q.application)), companyId, fs);
        fs := fs + [(ApplicationIs, StrVal(Upper(q.application)))];
      }
      if q.decision != "" {
        Add(DecisionIs, StrVal(Upper(q.decision)), companyId, fs);
        fs := fs + [(DecisionIs, StrVal(Upper(q.decision)))];
      }
      if q.direction != "" {
        Add(DirectionIs, StrVal(Upper(q.direction)), companyId, fs);
        fs := fs + [(DirectionIs, StrVal(Upper(q.direction)))];
      }
    }

    method AddTimesAndTerm(q: Query, ghost companyId: int, ghost before: seq<(Test, Val)>)
      requires Built(where, args, companyId, before)
      modifies this
      ensures Built(where, args, companyId, TimeFilters(before, q))
    {
      hide Built;
      hide TrimSpace;
      hide SearchPattern;
      ghost var fs := before;
      if q.from.Some? {
        Add(From, IntVal(q.from.value), companyId, fs);
        fs := fs + [(From, IntVal(q.from.value))];
      }
      if q.until.Some? {
        Add(Until, IntVal(q.until.value), companyId, fs);
        fs := fs + [(Until, IntVal(q.until.value))];
      }
      var term := TrimSpace(q.term);
      if term != "" {
        Add(Search, StrVal(SearchPattern(term)), companyId, fs);
        fs := fs + [(Search, StrVal(SearchPattern(term)))];
      }
    }
  }

  // ---- The clauses mean the filters ------------------------------------------------------------------

  /** What one filter with its value asks of an event. */
  ghost predicate FilterHolds(f: (Test, Val), companyId: int, e: Event, dir: Directory, fold: char -> char) {
    Truth(f.0, if f.0 == Search then [f.1, f.1, f.1] else if Scoping(f.0) then [f.1, IntVal(companyId)] else [f.1], e, dir, fold)
  }

  /** A compiled clause reads its own filter's value, and means that filter, however many arguments follow. */
  lemma ClauseMeansItsFilter(where: seq<Clause>, args: seq<Val>, more: seq<Val>, companyId: int, fs: seq<(Test, Val)>, i: nat,
                             e: Event, dir: Directory, fold: char -> char)
    requires Built(where, args, companyId, fs) && i < |fs|
    ensures Holds(where[i + 1], args + more, e, dir, fold) <==> FilterHolds(fs[i], companyId, e, dir, fold)
  {
    hide Truth;
    hide Refs;
    CompiledRefs(fs[i].0, i + 2);
    CompiledTest(fs[i].0, i + 2);
    hide Compile;
    NamedValues(args + more, i + 2);
  }

  lemma CompiledTest(test: Test, n: nat)
    ensures Compile(test, n).test == test
  {
    hide ReplaceFirst;
    hide Itoa;
  }

  lemma NamedValues(all: seq<Val>, n: nat)
    requires 1 <= n <= |all|
    ensures Named([n, n, n], all) == Some([all[n - 1], all[n - 1], all[n - 1]])
    ensures Named([n, 1], all) == Some([all[n - 1], all[0]])
    ensures Named([n], all) == Some([all[n - 1]])
  {
    assert Named([n, n, n], all).value == [all[n - 1], all[n - 1], all[n - 1]];
    assert Named([n, 1], all).value == [all[n - 1], all[0]];
    assert Named([n], all).value == [all[n - 1]];
  }

  lemma CompanyClauseMeans(where: seq<Clause>, args: seq<Val>, more: seq<Val>, companyId: int, fs: seq<(Test, Val)>,
                           e: Event, dir: Directory, fold: char -> char)
    requires Built(where, args, companyId, fs)
    ensures Holds(where[0], args + more, e, dir, fold) <==> e.companyId == companyId
  {
    hide Refs;
    CompiledRefs(CompanyIs, 1);
    hide Compile;
    var vals := Named(Refs(where[0].text), args + more).value;
    assert vals == [IntVal(companyId)];
  }

  /** The joined clause is the conjunction of the filters, with or without the arguments of the page. */
  lemma ClausesMeanFilters(where: seq<Clause>, args: seq<Val>, more: seq<Val>, companyId: int, fs: seq<(Test, Val)>,
                           e: Event, dir: Directory, fold: char -> char)
    requires Built(where, args, companyId, fs)
    ensures AllHold(where, args + more, e, dir, fold) <==>
            e.companyId == companyId && forall f :: f in fs ==> FilterHolds(f, companyId, e, dir, fold)
  {
    hide Holds;
    hide FilterHolds;
    CompanyClauseMeans(where, args, more, companyId, fs, e, dir, fold);
    forall i: nat | i < |fs| ensures Holds(where[i + 1], args + more, e, dir, fold) <==> FilterHolds(fs[i], companyId, e, dir, fold) {
      ClauseMeansItsFilter(where, args, more, companyId, fs, i, e, dir, fold);
    }
    if e.companyId == companyId && forall f :: f in fs ==> FilterHolds(f, companyId, e, dir, fold) {
      forall i | 0 <= i < |where| ensures Holds(where[i], args + more, e, dir, fold) {
        if i > 0 { assert fs[i - 1] in fs; assert where[(i - 1) + 1] == where[i]; }
      }
    }
    if AllHold(where, args + more, e, dir, fold) {
      forall f | f in fs ensures FilterHolds(f, companyId, e, dir, fold) {
        var i :| 0 <= i < |fs| && fs[i] == f;
        assert Holds(where[i + 1], args + more, e, dir, fold);
      }
    }
  }

  /** Adding a filter to the list adds its meaning. */
  lemma WhenMeans(fs: seq<(Test, Val)>, on: bool, test: Test, value: Val, companyId: int, e: Event, dir: Directory, fold: char -> char)
    ensures (forall f :: f in When(fs, on, test, value) ==> FilterHolds(f, companyId, e, dir, fold))
       <==> (forall f :: f in fs ==> FilterHolds(f, companyId, e, dir, fold))
            && (on ==> FilterHolds((test, value), companyId, e, dir, fold))
  {
    hide FilterHolds;
    if on {
      assert When(fs, on, test, value)[|fs|] == (test, value);
      assert forall f :: f in fs ==> f in When(fs, on, test, value);
    }
  }

  lemma OneAtMost(ids: set<int>, id: int)
    requires |ids| <= 1
    ensures ids == {id} <==> id in ids
  {
    if id in ids {
      assert ids == {id} + (ids - {id});
    }
  }

  lemma DeviceFilterMeans(serial: string, companyId: int, e: Event, dir: Directory, fold: char -> char)
    requires |DevicesOf(dir, serial, companyId)| <= 1
    ensures FilterHolds((DeviceIs, StrVal(serial)), companyId, e, dir, fold)
       <==> e.deviceId.Some? && e.deviceId.value in DevicesOf(dir, serial, companyId)
  {
    hide DevicesOf;
    if e.deviceId.Some? { OneAtMost(DevicesOf(dir, serial, companyId), e.deviceId.value); }
  }

  /** The serial asked for, if any, is that of at most one row of the company. */
  predicate SerialIsOneRow(q: Query, companyId: int, dir: Directory) {
    q.deviceSerial == "" || |DevicesOf(dir, q.deviceSerial, companyId)| <= 1
  }

  lemma PlaceFilterMeans(q: Query, companyId: int, e: Event, dir: Directory, fold: char -> char)
    ensures FilterHolds((SiteIn, SetVal(q.siteIds)), companyId, e, dir, fold) <==> e.siteId.Some? && e.siteId.value in q.siteIds
    ensures FilterHolds((SiteIs, StrVal(q.siteId)), companyId, e, dir, fold)
       <==> SameId(e.siteId, Lookup(dir.sites, ToLower(q.siteId), companyId))
    ensures FilterHolds((PersonIs, StrVal(q.personId)), companyId, e, dir, fold)
       <==> SameId(e.personId, Lookup(dir.people, ToLower(q.personId), companyId))
  {
    hide ToLower;
    hide SameId;
    hide Lookup;
  }

  lemma PlacesMean(q: Query, companyId: int, e: Event, dir: Directory, fold: char -> char)
    requires SerialIsOneRow(q, companyId, dir)
    ensures (forall f :: f in PlaceFilters(q) ==> FilterHolds(f, companyId, e, dir, fold)) <==> WantedPlace(q, companyId, e, dir)
  {
    hide When;
    hide ToLower;
    if q.deviceSerial != "" { DeviceFilterMeans(q.deviceSerial, companyId, e, dir, fold); }
    PlaceFilterMeans(q, companyId, e, dir, fold);
    hide DevicesOf;
    hide FilterHolds;
    hide SameId;
    hide Lookup;
    var sites := When([], q.scoped, SiteIn, SetVal(q.siteIds));
    var site := When(sites, q.siteId != "", SiteIs, StrVal(q.siteId));
    var device := When(site, q.deviceSerial != "", DeviceIs, StrVal(q.deviceSerial));
    WhenMeans([], q.scoped, SiteIn, SetVal(q.siteIds), companyId, e, dir, fold);
    WhenMeans(sites, q.siteId != "", SiteIs, StrVal(q.siteId), companyId, e, dir, fold);
    WhenMeans(site, q.deviceSerial != "", DeviceIs, StrVal(q.deviceSerial), companyId, e, dir, fold);
    WhenMeans(device, q.personId != "", PersonIs, StrVal(q.personId), companyId, e, dir, fold);
  }

  lemma TextFilterMeans(value: string, companyId: int, e: Event, dir: Directory, fold: char -> char)
    ensures FilterHolds((ExternalIdIs, StrVal(value)), companyId, e, dir, fold) <==> e.subjectExternalId == Some(value)
    ensures FilterHolds((TypeIs, StrVal(Upper(value))), companyId, e, dir, fold) <==> InCapitals(e.eventType, value)
    ensures FilterHolds((ApplicationIs, StrVal(Upper(value))), companyId, e, dir, fold) <==> SomeInCapitals(e.application, value)
    ensures FilterHolds((DecisionIs, StrVal(Upper(value))), companyId, e, dir, fold) <==> SomeInCapitals(e.decision, value)
    ensures FilterHolds((DirectionIs, StrVal(Upper(value))), companyId, e, dir, fold) <==> SomeInCapitals(e.direction, value)
  {
    forall u: string ensures u == Upper(value) <==> InCapitals(u, value) { UpperMeans(u, value); }
    hide Upper;
    hide InCapitals;
  }

  lemma TextsMean(fs: seq<(Test, Val)>, q: Query, companyId: int, e: Event, dir: Directory, fold: char -> char)
    ensures (forall f :: f in TextFilters(fs, q) ==> FilterHolds(f, companyId, e, dir, fold))
       <==> (forall f :: f in fs ==> FilterHolds(f, companyId, e, dir, fold)) && WantedText(q, e)
  {
    hide When;
    hide Upper;
    hide FilterHolds;
    hide InCapitals;
    hide SomeInCapitals;
    TextFilterMeans(q.externalId, companyId, e, dir, fold);
    TextFilterMeans(q.eventType, companyId, e, dir, fold);
    TextFilterMeans(q.application, companyId, e, dir, fold);
    TextFilterMeans(q.decision, companyId, e, dir, fold);
    TextFilterMeans(q.direction, companyId, e, dir, fold);
    var external := When(fs, q.externalId != "", ExternalIdIs, StrVal(q.externalId));
    var kind := When(external, q.eventType != "", TypeIs, StrVal(Upper(q.eventType)));
    var application := When(kind, q.application != "", ApplicationIs, StrVal(Upper(q.application)));
    var decision := When(application, q.decision != "", DecisionIs, StrVal(Upper(q.decision)));
    WhenMeans(fs, q.externalId != "", ExternalIdIs, StrVal(q.externalId), companyId, e, dir, fold);
    WhenMeans(external, q.eventType != "", TypeIs, StrVal(Upper(q.eventType)), companyId, e, dir, fold);
    WhenMeans(kind, q.application != "", ApplicationIs, StrVal(Upper(q.application)), companyId, e, dir, fold);
    WhenMeans(application, q.decision != "", DecisionIs, StrVal(Upper(q.decision)), companyId, e, dir, fold);
    WhenMeans(decision, q.direction != "", DirectionIs, StrVal(Upper(q.direction)), companyId, e, dir, fold);
  }

  lemma SearchMeans(term: string, companyId: int, e: Event, dir: Directory, fold: char -> char)
    ensures FilterHolds((Search, StrVal(SearchPattern(term))), companyId, e, dir, fold)
       <==> Mentions(fold, e.subjectExternalId, term) || Mentions(fold, e.personExternalId, term) || Mentions(fold, e.personName, term)
  {
    hide Like;
    hide Occurs;
    hide SearchPattern;
    if e.subjectExternalId.Some? { SearchFindsExactlyTheLiteralTerm(fold, term, e.subjectExternalId.value); }
    if e.personExternalId.Some? { SearchFindsExactlyTheLiteralTerm(fold, term, e.personExternalId.value); }
    if e.personName.Some? { SearchFindsExactlyTheLiteralTerm(fold, term, e.personName.value); }
  }

  lemma TimesMean(fs: seq<(Test, Val)>, q: Query, companyId: int, e: Event, dir: Directory, fold: char -> char)
    ensures (forall f :: f in TimeFilters(fs, q) ==> FilterHolds(f, companyId, e, dir, fold))
       <==> (forall f :: f in fs ==> FilterHolds(f, companyId, e, dir, fold)) && WantedTime(q, e, fold)
  {
    hide When;
    hide TrimSpace;
    hide SearchPattern;
    hide Mentions;
    var start, end := IntVal(if q.from.Some? then q.from.value else 0), IntVal(if q.until.Some? then q.until.value else 0);
    var from := When(fs, q.from.Some?, From, start);
    var until := When(from, q.until.Some?, Until, end);
    var term := TrimSpace(q.term);
    WhenMeans(fs, q.from.Some?, From, start, companyId, e, dir, fold);
    WhenMeans(from, q.until.Some?, Until, end, companyId, e, dir, fold);
    WhenMeans(until, term != "", Search, StrVal(SearchPattern(term)), companyId, e, dir, fold);
    SearchMeans(term, companyId, e, dir, fold);
  }

  lemma ClausesFindWanted(where: seq<Clause>, args: seq<Val>, more: seq<Val>, q: Query, companyId: int,
                          e: Event, dir: Directory, fold: char -> char)
    requires Built(where, args, companyId, Filters(q)) && SerialIsOneRow(q, companyId, dir)
    ensures AllHold(where, args + more, e, dir, fold) <==> Wanted(q, companyId, e, dir, fold)
  {
    hide Built;
    hide AllHold;
    hide FilterHolds;
    hide WantedPlace;
    hide WantedText;
    hide WantedTime;
    hide PlaceFilters;
    hide TextFilters;
    hide TimeFilters;
    hide SerialIsOneRow;
    ClausesMeanFilters(where, args, more, companyId, Filters(q), e, dir, fold);
    PlacesMean(q, companyId, e, dir, fold);
    TextsMean(PlaceFilters(q), q, companyId, e, dir, fold);
    TimesMean(TextFilters(PlaceFilters(q), q), q, companyId, e, dir, fold);
  }

  // ---- A serial with several rows ----------------------------------------------------------------------

  /** Only the device filter has a subquery that can find several rows, and it is there when a serial is asked for. */
  lemma DeviceFilterIsThere(q: Query, value: Val)
    ensures (DeviceIs, value) in Filters(q) <==> q.deviceSerial != "" && value == StrVal(q.deviceSerial)
  {
    LaterFiltersAreNot(PlaceFilters(q), q, value);
  }

  lemma LaterFiltersAreNot(fs: seq<(Test, Val)>, q: Query, value: Val)
    ensures (DeviceIs, value) in TextFilters(fs, q) <==> (DeviceIs, value) in fs
    ensures (DeviceIs, value) in TimeFilters(TextFilters(fs, q), q) <==> (DeviceIs, value) in fs
  {
    hide TrimSpace;
    hide SearchPattern;
    hide Upper;
  }

  lemma ClauseFails(where: seq<Clause>, args: seq<Val>, more: seq<Val>, companyId: int, fs: seq<(Test, Val)>, i: nat, dir: Directory)
    requires Built(where, args, companyId, fs) && i < |fs|
    ensures Fails(where[i + 1], args + more, dir) <==>
            fs[i].0 == DeviceIs && fs[i].1.StrVal? && |DevicesOf(dir, fs[i].1.s, companyId)| > 1
  {
    hide Refs;
    hide DevicesOf;
    CompiledRefs(fs[i].0, i + 2);
    CompiledTest(fs[i].0, i + 2);
    hide Compile;
    NamedValues(args + more, i + 2);
  }

  lemma AnsweredExactlyWhenOneRow(where: seq<Clause>, args: seq<Val>, more: seq<Val>, q: Query, companyId: int, dir: Directory)
    requires Built(where, args, companyId, Filters(q))
    ensures Answered(where, args + more, dir) <==> SerialIsOneRow(q, companyId, dir)
  {
    hide Fails;
    hide Filters;
    hide DevicesOf;
    var fs := Filters(q);
    CompanyClauseAnswers(where, args, more, companyId, fs, dir);
    forall i: nat | i < |fs| ensures Fails(where[i + 1], args + more, dir) <==> fs[i].0 == DeviceIs && !SerialIsOneRow(q, companyId, dir) {
      ClauseFails(where, args, more, companyId, fs, i, dir);
      assert (fs[i].0, fs[i].1) in fs;
      DeviceFilterIsThere(q, fs[i].1);
    }
    if !SerialIsOneRow(q, companyId, dir) {
      DeviceFilterIsThere(q, StrVal(q.deviceSerial));
      var i :| 0 <= i < |fs| && fs[i] == (DeviceIs, StrVal(q.deviceSerial));
      assert Fails(where[i + 1], args + more, dir);
    } else {
      forall i | 0 <= i < |where| ensures !Fails(where[i], args + more, dir) {
        if i > 0 { assert fs[i - 1] in fs && where[(i - 1) + 1] == where[i]; }
      }
    }
  }

  lemma CompanyClauseAnswers(where: seq<Clause>, args: seq<Val>, more: seq<Val>, companyId: int, fs: seq<(Test, Val)>, dir: Directory)
    requires Built(where, args, companyId, fs)
    ensures !Fails(where[0], args + more, dir)
  {
    CompiledTest(CompanyIs, 1);
    hide Compile;
  }

  /** The database answers, and with exactly the wanted events. */
  ghost predicate FindsExactly(where: seq<Clause>, args: seq<Val>, q: Query, companyId: int, dir: Directory, fold: char -> char) {
    Answered(where, args, dir) && forall e :: AllHold(where, args, e, dir, fold) <==> Wanted(q, companyId, e, dir, fold)
  }

  /**
   * For every combination of filters, the query is answered, and with exactly the events it is
   * for, exactly when the serial it asks for, if any, has at most one row in the company.
   */
  lemma CompiledClauseFindsWanted(where: seq<Clause>, args: seq<Val>, more: seq<Val>, q: Query, companyId: int,
                                  dir: Directory, fold: char -> char)
    requires Built(where, args, companyId, Filters(q))
    ensures FindsExactly(where, args + more, q, companyId, dir, fold) <==> SerialIsOneRow(q, companyId, dir)
  {
    hide Built;
    hide Answered;
    hide AllHold;
    hide Wanted;
    hide Filters;
    hide SerialIsOneRow;
    AnsweredExactlyWhenOneRow(where, args, more, q, companyId, dir);
    if SerialIsOneRow(q, companyId, dir) {
      forall e ensures AllHold(where, args + more, e, dir, fold) <==> Wanted(q, companyId, e, dir, fold) {
        ClausesFindWanted(where, args, more, q, companyId, e, dir, fold);
      }
    }
  }

  /** The device rows as the provisioning tables hold them. */
  function RowsOf(db: Provisioning.Db): map<int, DeviceRow> {
    map id: nat | id in db.devices && db.devices[id].site in db.sites ::
      DeviceRow(db.devices[id].serial, db.sites[db.devices[id].site].company)
  }

  /**
   * A terminal that was retired and registered again makes every query for its serial fail:
   * only live rows have unique serials, and the subquery does not ask for live rows.
   */
  lemma ReRegisteredSerialFailsTheQuery(where: seq<Clause>, args: seq<Val>, q: Query, companyId: nat,
                                        sites: map<(string, int), int>, people: map<(string, int), int>)
    requires Built(where, args, companyId, Filters(q)) && q.deviceSerial != ""
    ensures var db := Provisioning.At(ProvisioningRuns.EMPTY, ProvisioningRuns.ReRegistered(q.deviceSerial, companyId), 5);
            !Answered(where, args, Directory(sites, RowsOf(db), people))
  {
    hide Built;
    hide Filters;
    hide Answered;
    var db := Provisioning.At(ProvisioningRuns.EMPTY, ProvisioningRuns.ReRegistered(q.deviceSerial, companyId), 5);
    var dir := Directory(sites, RowsOf(db), people);
    ProvisioningRuns.ReRegisteredLeavesTwoRows(q.deviceSerial, companyId);
    hide Provisioning.At;
    var ids := DevicesOf(dir, q.deviceSerial, companyId);
    assert 0 in ids && 1 in ids;
    assert ids == {0, 1} + (ids - {0, 1});
    assert args + [] == args;
    AnsweredExactlyWhenOneRow(where, args, [], q, companyId, dir);
  }

  /** An empty page answered without asking is right: no event could have been meant. */
  lemma NothingAskedIsNothingWanted(q: Query, companyId: int, e: Event, dir: Directory, fold: char -> char)
    requires AsksForNothing(q)
    requires forall id, c :: (id, c) in dir.sites || (id, c) in dir.people ==> IsUuid(id)
    ensures !Wanted(q, companyId, e, dir, fold)
  {
    UuidMeans(q.siteId);
    UuidMeans(q.personId);
    UuidMeans(ToLower(q.siteId));
    UuidMeans(ToLower(q.personId));
    hide IsUuid;
    hide WantedText;
    hide WantedTime;
    LowerUuid(q.siteId);
    LowerUuid(q.personId);
    hide LooksLikeUuid;
  }

  lemma LowerUuid(s: string)
    ensures LooksLikeUuid(ToLower(s)) ==> LooksLikeUuid(s)
  {
    if LooksLikeUuid(ToLower(s)) {
      forall i | 0 <= i < 36 ensures if i in {8, 13, 18, 23} then s[i] == '-' else HexDigit(s[i]) {
        LowerAt(s, i);
        HexOfLower(s[i]);
      }
    }
  }

  lemma HexOfLower(c: char)
    ensures HexDigit(LowerChar(c)) ==> HexDigit(c)
    ensures LowerChar(c) == '-' ==> c == '-'
  {
  }

  lemma {:induction false} LowerAt(s: string, i: nat)
    requires i < |s|
    ensures ToLower(s)[i] == LowerChar(s[i])
  {
    if i > 0 { LowerAt(s[1..], i - 1); }
  }

  // ---- The page --------------------------------------------------------------------------------------

  /** What ListEvents sends: the clauses, the arguments of the page, and the text after ORDER BY. */
  datatype Plan = Plan(where: seq<Clause>, countArgs: seq<Val>, pageArgs: seq<Val>, tail: string)

  lemma TailNamesLastTwo(n: nat)
    ensures Refs("LIMIT $" + Itoa(n + 1) + " OFFSET $" + Itoa(n + 2)) == [n + 1, n + 2]
  {
    hide Refs;
    hide Itoa;
    PlainPage();
    RefsOfText("");
    RefsOfParameter(" OFFSET ", n + 2, "");
    var rest := " OFFSET " + "$" + Itoa(n + 2) + "";
    RefsOfParameter("LIMIT ", n + 1, rest);
    assert "LIMIT $" + Itoa(n + 1) + " OFFSET $" + Itoa(n + 2) == "LIMIT " + "$" + Itoa(n + 1) + rest;
  }

  lemma PlainPage()
    ensures '$' !in "LIMIT " && '$' !in " OFFSET " && !IsDigit(" OFFSET "[0])
  {
  }

  lemma BuiltText(where: seq<Clause>, args: seq<Val>, companyId: int, fs: seq<(Test, Val)>, i: nat)
    requires Built(where, args, companyId, fs) && i < |where|
    ensures where[i].text == ClauseText(where[i].test, "$" + Itoa(i + 1))
  {
    var test := if i == 0 then CompanyIs else fs[i - 1].0;
    CompiledTest(test, i + 1);
    CompiledText(test, i + 1);
    if i > 0 { assert where[(i - 1) + 1] == Compile(fs[i - 1].0, (i - 1) + 2); }
    hide Compile;
    hide ClauseText;
  }

  /**
   * ListEvents up to the database: nothing to ask, or a plan whose clauses, for the count and
   * for the page alike, find exactly the wanted events exactly when the serial asked for has one
   * row at most, and whose LIMIT and OFFSET are the last two arguments.
   */
  method ListEvents(companyId: int, q: Query) returns (plan: Option<Plan>, limit: int, offset: int)
    ensures plan == None <==> AsksForNothing(q)
    ensures limit == if q.limit <= 0 then 50 else if q.limit > 500 then 500 else q.limit
    ensures offset == if q.offset < 0 then 0 else q.offset
    ensures plan.Some? ==>
              var p := plan.value;
              && p.pageArgs == p.countArgs + [IntVal(limit), IntVal(offset)]
              && Named(Refs(p.tail), p.pageArgs) == Some([IntVal(limit), IntVal(offset)])
              && (forall i | 0 <= i < |p.where| :: p.where[i].text == ClauseText(p.where[i].test, "$" + Itoa(i + 1)))
              && (forall dir, fold :: FindsExactly(p.where, p.countArgs, q, companyId, dir, fold) <==> SerialIsOneRow(q, companyId, dir))
              && (forall dir, fold :: FindsExactly(p.where, p.pageArgs, q, companyId, dir, fold) <==> SerialIsOneRow(q, companyId, dir))
  {
    hide FindsExactly;
    hide SerialIsOneRow;
    hide Refs;
    hide Built;
    limit := q.limit;
    if limit <= 0 {
      limit := DEFAULT_LIMIT;
    }
    if limit > MAX_LIMIT {
      limit := MAX_LIMIT;
    }
    offset := q.offset;
    if offset < 0 {
      offset := 0;
    }
    var b := new Builder(companyId);
    var ask := b.AddPlaces(q, companyId);
    if !ask {
      return None, limit, offset;
    }
    b.AddTexts(q, companyId, PlaceFilters(q));
    b.AddTimesAndTerm(q, companyId, TextFilters(PlaceFilters(q), q));
    var where, args := b.where, b.args;
    var n := |args|;
    var pageArgs := args + [IntVal(limit), IntVal(offset)];
    TailNamesLastTwo(n);
    assert pageArgs[n] == IntVal(limit) && pageArgs[n + 1] == IntVal(offset);
    assert args + [] == args;
    forall i | 0 <= i < |where| ensures where[i].text == ClauseText(where[i].test, "$" + Itoa(i + 1)) {
      BuiltText(where, args, companyId, Filters(q), i);
    }
    var text := "LIMIT $" + Itoa(n + 1) + " OFFSET $" + Itoa(n + 2);
    assert Named(Refs(text), pageArgs).value == [IntVal(limit), IntVal(offset)];
    forall dir, fold
      ensures FindsExactly(where, args, q, companyId, dir, fold) <==> SerialIsOneRow(q, companyId, dir)
      ensures FindsExactly(where, pageArgs, q, companyId, dir, fold) <==> SerialIsOneRow(q, companyId, dir)
    {
      CompiledClauseFindsWanted(where, args, [], q, companyId, dir, fold);
      CompiledClauseFindsWanted(where, args, [IntVal(limit), IntVal(offset)], q, companyId, dir, fold);
    }
    plan := Some(Plan(where, args, pageArgs, text));
  }
}
