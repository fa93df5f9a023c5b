/**
 * The terminal inventory page (database/firmware.go), with clauses as in EventQueries. The
 * site scope is a clause hardcoded to $2 that is left out for an unscoped caller, so every
 * later parameter shifts with it.
 */
module DeviceQueries {
  import opened Options
  import opened Text
  import opened LikePattern
  import opened Placeholders

  datatype Query = Query(outdatedOnly: bool, search: string, limit: int, offset: int)

  /** One row of the inventory join: live rows only. */
  datatype Row = Row(companyId: int, siteId: int, serial: string, name: Option<string>, siteName: string,
                     installed: Option<string>, current: Option<string>)

  datatype Part = InCompany | InSites | Outdated | Matching

  datatype Clause = Clause(part: Part, text: string)

  const COMPANY := "WHERE s.company_id = "
  const SCOPE := " AND d.site_id = ANY("
  const HAS_BUILD := " AND fv.version IS NOT NULL"
  const NOT_INSTALLED := " AND (d.firmware_version IS NULL"
  const OR_OTHER := " OR d.firmware_version <> fv.version)"
  const OUTDATED := HAS_BUILD + NOT_INSTALLED + OR_OTHER
  const SERIAL := " AND (d.serial_number ILIKE "
  const NAME := " ESCAPE '\\' OR d.device_name ILIKE "
  const SITE := " ESCAPE '\\' OR s.site_name ILIKE "
  const END := " ESCAPE '\\')"

  /** siteScopeClause: None is every site, an empty set is none. */
  function SiteScopeClause(siteIds: Option<set<int>>): (seq<Clause>, seq<Val>) {
    if siteIds == None then ([], [])
    else ([Clause(InSites, SCOPE + "$" + Itoa(2) + ")")], [SetVal(siteIds.value)])
  }

  function SearchClause(n: nat): Clause {
    var p := "$" + Itoa(n);
    Clause(Matching, SERIAL + p + NAME + p + SITE + p + END)
  }

  predicate Holds(c: Clause, args: seq<Val>, row: Row, fold: char -> char) {
    var vals := Named(Refs(c.text), args);
    vals.Some? && match c.part
      case InCompany => vals.value == [IntVal(row.companyId)]
      case InSites => |vals.value| == 1 && vals.value[0].SetVal? && row.siteId in vals.value[0].ids
      case Outdated => row.current.Some? && row.installed != row.current
      case Matching =>
        |vals.value| == 3 && vals.value[0].StrVal? && vals.value[1].StrVal? && vals.value[2].StrVal?
        && (Found(fold, Some(row.serial), vals.value[0].s) || Found(fold, row.name, vals.value[1].s)
            || Found(fold, Some(row.siteName), vals.value[2].s))
  }

  ghost predicate AllHold(where: seq<Clause>, args: seq<Val>, row: Row, fold: char -> char) {
    forall c :: c in where ==> Holds(c, args, row, fold)
  }

  ghost predicate Wanted(companyId: int, siteIds: Option<set<int>>, q: Query, row: Row, fold: char -> char) {
    && row.companyId == companyId
    && (siteIds.Some? ==> row.siteId in siteIds.value)
    && (q.outdatedOnly ==> row.current.Some? && row.installed != row.current)
    && (q.search != "" ==>
          Occurs(fold, q.search, row.serial) || (row.name.Some? && Occurs(fold, q.search, row.name.value))
          || Occurs(fold, q.search, row.siteName))
  }

  // ---- What each text names ---------------------------------------------------------------

  lemma PlainTexts()
    ensures '$' !in COMPANY && '$' !in SCOPE && '$' !in SERIAL && '$' !in ")"
  {
  }

  lemma PlainOutdated()
    ensures '$' !in OUTDATED
  {
    PlainBuild();
    PlainOther();
  }

  lemma PlainBuild()
    ensures '$' !in HAS_BUILD && '$' !in NOT_INSTALLED
  {
  }

  lemma PlainOther()
    ensures '$' !in OR_OTHER
  {
  }

  lemma PlainSearch()
    ensures '$' !in NAME && '$' !in SITE && '$' !in END
    ensures !IsDigit(NAME[0]) && !IsDigit(SITE[0]) && !IsDigit(END[0])
  {
  }

  lemma ScopeRefs()
    ensures Refs(SCOPE + "$" + Itoa(2) + ")") == [2]
  {
    PlainTexts();
    hide Refs;
    RefsOfText(")");
    RefsOfParameter(SCOPE, 2, ")");
  }

  lemma CompanyRefs()
    ensures Refs(COMPANY + "$" + Itoa(1) + "") == [1]
  {
    PlainTexts();
    hide Refs;
    RefsOfText("");
    RefsOfParameter(COMPANY, 1, "");
  }

  lemma SearchRefs(n: nat)
    ensures Refs(SearchClause(n).text) == [n, n, n]
  {
    PlainTexts();
    PlainSearch();
    hide Refs;
    hide Itoa;
    RefsThreeTimes(SERIAL, NAME, SITE, END, n);
  }

  // ---- The page ---------------------------------------------------------------------------

  function CompanyClause(): Clause { Clause(InCompany, COMPANY + "$" + Itoa(1) + "") }

  lemma CompanyMeans(args: seq<Val>, companyId: int, row: Row, fold: char -> char)
    requires args != [] && args[0] == IntVal(companyId)
    ensures Holds(CompanyClause(), args, row, fold) <==> row.companyId == companyId
  {
    hide Refs;
    hide Itoa;
    CompanyRefs();
    assert Named(Refs(CompanyClause().text), args).value == [IntVal(companyId)];
  }

  lemma ScopeMeans(args: seq<Val>, siteIds: set<int>, row: Row, fold: char -> char)
    requires |args| >= 2 && args[1] == SetVal(siteIds)
    ensures Holds(SiteScopeClause(Some(siteIds)).0[0], args, row, fold) <==> row.siteId in siteIds
  {
    hide Refs;
    hide Itoa;
    ScopeRefs();
    assert Named(Refs(SiteScopeClause(Some(siteIds)).0[0].text), args).value == [SetVal(siteIds)];
  }

  lemma OutdatedMeans(args: seq<Val>, row: Row, fold: char -> char)
    ensures Holds(Clause(Outdated, OUTDATED), args, row, fold) <==> row.current.Some? && row.installed != row.current
  {
    PlainOutdated();
    hide Refs;
    RefsOfText(OUTDATED);
  }

  lemma SearchMeans(args: seq<Val>, n: nat, term: string, row: Row, fold: char -> char)
    requires 1 <= n <= |args| && args[n - 1] == StrVal(SearchPattern(term))
    ensures Holds(SearchClause(n), args, row, fold) <==>
            Occurs(fold, term, row.serial) || (row.name.Some? && Occurs(fold, term, row.name.value)) || Occurs(fold, term, row.siteName)
  {
    SearchRefs(n);
    hide SearchClause;
    hide Refs;
    hide Like;
    hide Occurs;
    hide SearchPattern;
    var v := StrVal(SearchPattern(term));
    assert Named(Refs(SearchClause(n).text), args).value == [v, v, v];
    PartOfSearch(n);
    SearchFindsExactlyTheLiteralTerm(fold, term, row.serial);
    SearchFindsExactlyTheLiteralTerm(fold, term, row.siteName);
    if row.name.Some? { SearchFindsExactlyTheLiteralTerm(fold, term, row.name.value); }
  }

  lemma PartOfSearch(n: nat)
    ensures SearchClause(n).part == Matching
  {
  }

  /** The clauses as they are sent; `p` is the search's parameter. */
  function PartText(part: Part, p: string): string {
    match part
    case InCompany => "WHERE s.company_id = " + "$" + "1" + ""
    case InSites => " AND d.site_id = ANY(" + "$" + "2" + ")"
    case Outdated => " AND fv.version IS NOT NULL" + " AND (d.firmware_version IS NULL" + " OR d.firmware_version <> fv.version)"
    case Matching =>
      " AND (d.serial_number ILIKE " + p + " ESCAPE '\\' OR d.device_name ILIKE " + p
      + " ESCAPE '\\' OR s.site_name ILIKE " + p + " ESCAPE '\\')"
  }

  lemma PageTexts(companyId: int, siteIds: Option<set<int>>, q: Query)
    ensures forall c :: c in WhereOf(siteIds, q) ==> c.text == PartText(c.part, "$" + Itoa(|ArgsOf(companyId, siteIds, q)|))
    ensures |WhereOf(siteIds, q)| == 1 + (if siteIds.Some? then 1 else 0) + (if q.outdatedOnly then 1 else 0) + (if q.search != "" then 1 else 0)
  {
    assert Itoa(1) == "1" && Itoa(2) == "2";
    hide Itoa;
    hide SearchPattern;
  }

  /**
   * ListConsoleDevicesPage up to the database. Scoped or not, searched or not, the clauses find
   * exactly the wanted rows for the count and for the page, and LIMIT and OFFSET bind to the
   * last two arguments. A caller scoped to no sites wants no rows.
   */
  method ListConsoleDevicesPage(companyId: int, siteIds: Option<set<int>>, q: Query)
    returns (where: seq<Clause>, countArgs: seq<Val>, pageArgs: seq<Val>, limitAt: nat, offsetAt: nat)
    ensures pageArgs == countArgs + [IntVal(q.limit), IntVal(q.offset)]
    ensures 1 <= limitAt && offsetAt == limitAt + 1 == |pageArgs|
    ensures pageArgs[limitAt - 1] == IntVal(q.limit) && pageArgs[offsetAt - 1] == IntVal(q.offset)
    ensures forall row, fold ::
              (AllHold(where, countArgs, row, fold) <==> Wanted(companyId, siteIds, q, row, fold))
              && (AllHold(where, pageArgs, row, fold) <==> Wanted(companyId, siteIds, q, row, fold))
    ensures siteIds == Some({}) ==> forall row, fold :: !AllHold(where, pageArgs, row, fold)
    ensures forall c :: c in where ==> c.text == PartText(c.part, "$" + Itoa(|countArgs|))
  {
    hide Holds;
    hide Itoa;
    hide SearchClause;
    hide Occurs;
    hide SearchPattern;
    var (scope, scopeArgs) := SiteScopeClause(siteIds);
    var args := [IntVal(companyId)] + scopeArgs;
    where := [CompanyClause()] + scope;
    if q.outdatedOnly {
      where := where + [Clause(Outdated, OUTDATED)];
    }
    ghost var n := |args| + 1;
    if q.search != "" {
      args := args + [StrVal(SearchPattern(q.search))];
      where := where + [SearchClause(|args|)];
    }
    countArgs := args;
    args := args + [IntVal(q.limit), IntVal(q.offset)];
    pageArgs, limitAt, offsetAt := args, |args| - 1, |args|;
    assert countArgs + [] == countArgs;
    PageTexts(companyId, siteIds, q);
    hide PartText;
    forall row, fold
      ensures AllHold(where, countArgs, row, fold) <==> Wanted(companyId, siteIds, q, row, fold)
      ensures AllHold(where, pageArgs, row, fold) <==> Wanted(companyId, siteIds, q, row, fold)
    {
      PageMeans(where, countArgs, [], companyId, siteIds, q, row, fold);
      PageMeans(where, countArgs, [IntVal(q.limit), IntVal(q.offset)], companyId, siteIds, q, row, fold);
    }
  }

  function WhereOf(siteIds: Option<set<int>>, q: Query): seq<Clause> {
    var scoped := [CompanyClause()] + SiteScopeClause(siteIds).0;
    var outdated := if q.outdatedOnly then scoped + [Clause(Outdated, OUTDATED)] else scoped;
    if q.search != "" then outdated + [SearchClause(|SiteScopeClause(siteIds).1| + 2)] else outdated
  }

  function ArgsOf(companyId: int, siteIds: Option<set<int>>, q: Query): seq<Val> {
    var scoped := [IntVal(companyId)] + SiteScopeClause(siteIds).1;
    if q.search != "" then scoped + [StrVal(SearchPattern(q.search))] else scoped
  }

  lemma PageMeans(where: seq<Clause>, args: seq<Val>, more: seq<Val>, companyId: int, siteIds: Option<set<int>>, q: Query,
                  row: Row, fold: char -> char)
    requires where == WhereOf(siteIds, q) && args == ArgsOf(companyId, siteIds, q)
    ensures AllHold(where, args + more, row, fold) <==> Wanted(companyId, siteIds, q, row, fold)
  {
    hide Holds;
    hide Itoa;
    hide SearchClause;
    hide Occurs;
    hide SearchPattern;
    hide CompanyClause;
    var all := args + more;
    CompanyMeans(all, companyId, row, fold);
    OutdatedMeans(all, row, fold);
    if siteIds.Some? {
      ScopeMeans(all, siteIds.value, row, fold);
    }
    var n := |SiteScopeClause(siteIds).1| + 2;
    if q.search != "" {
      SearchMeans(all, n, q.search, row, fold);
    }
  }
}
