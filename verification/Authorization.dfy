/**
 * The rule half of the access evaluator (database/authorization.go): the loop that gathers
 * joined rows back into rules, and the deny-over-allow scan with its early exits. The gates
 * before it are in AccessDecisions.
 *
 * The database orders the joined rows by permission only, so the order of a permission's
 * windows is its own choice and a parameter here. The main theorem says the answer is
 * nevertheless a plain statement about the rows: every scheduled rule in its validity has a
 * known zone, some ALLOW is in force and no DENY is.
 */
module Authorization {
  import opened Options
  import opened Text
  import opened ScheduleWindows

  type Weekday = d: nat | d < 7

  /** A local wall-clock reading. */
  datatype Local = Local(weekday: Weekday, second: nat)

  /** The moment of a decision: the instant, what each known zone's clock shows, the site's zone. */
  datatype Instant = Instant(at: int, clocks: map<string, Local>, siteZone: string)

  datatype Effect = Allow | Deny

  // ---- Rules and the rows they are gathered from -------------------------------------

  /** One row of the permission query: a permission beside one window of its schedule, or none. */
  datatype JoinedRow = JoinedRow(publicId: string, effect: Effect, startsAt: Option<int>, endsAt: Option<int>,
                                 timezone: Option<string>, window: Option<Window>)

  /** permissionRow. */
  datatype Rule = Rule(publicId: string, effect: Effect, startsAt: Option<int>, endsAt: Option<int>,
                       timezone: Option<string>, hasWindow: bool, windows: seq<Window>)

  /** The ids of the rows, each at its first occurrence. */
  function Ids(rows: seq<JoinedRow>): seq<string> {
    if rows == [] then []
    else
      var before, id := Ids(rows[..|rows| - 1]), rows[|rows| - 1].publicId;
      if id in before then before else before + [id]
  }

  /** The windows of one id, in row order. */
  function WindowsFor(rows: seq<JoinedRow>, id: string): seq<Window> {
    if rows == [] then []
    else
      var before, row := WindowsFor(rows[..|rows| - 1], id), rows[|rows| - 1];
      if row.publicId == id && row.window.Some? then before + [row.window.value] else before
  }

  function FirstRow(rows: seq<JoinedRow>, id: string): (row: JoinedRow)
    requires exists r :: r in rows && r.publicId == id
    ensures row in rows && row.publicId == id
  {
    if rows[0].publicId == id then rows[0] else FirstRow(rows[1..], id)
  }

  lemma {:induction false} IdsAreTheRowIds(rows: seq<JoinedRow>)
    ensures forall id :: id in Ids(rows) <==> exists r :: r in rows && r.publicId == id
    ensures forall i, j :: 0 <= i < j < |Ids(rows)| ==> Ids(rows)[i] != Ids(rows)[j]
  {
    if rows != [] {
      var prefix, last := rows[..|rows| - 1], rows[|rows| - 1];
      IdsAreTheRowIds(prefix);
      assert rows == prefix + [last];
      forall id ensures id in Ids(rows) <==> exists r :: r in rows && r.publicId == id {
        if id == last.publicId {
          assert last in rows;
        } else if r :| r in rows && r.publicId == id {
          assert r in prefix;
        }
      }
    }
  }

  function RuleFor(rows: seq<JoinedRow>, id: string): Rule
    requires exists r :: r in rows && r.publicId == id
  {
    var first := FirstRow(rows, id);
    Rule(id, first.effect, first.startsAt, first.endsAt, first.timezone,
         WindowsFor(rows, id) != [], WindowsFor(rows, id))
  }

  lemma {:induction false} FirstRowIsStable(rows: seq<JoinedRow>, more: seq<JoinedRow>, id: string)
    requires exists r :: r in rows && r.publicId == id
    ensures exists r :: r in rows + more && r.publicId == id
    ensures FirstRow(rows + more, id) == FirstRow(rows, id)
  {
    var w :| w in rows && w.publicId == id;
    assert w in rows + more;
    if rows[0].publicId != id {
      assert w in rows[1..];
      FirstRowIsStable(rows[1..], more, id);
      assert (rows + more)[1..] == rows[1..] + more;
    }
  }

  lemma {:induction false} NewIdComesFirst(rows: seq<JoinedRow>, row: JoinedRow)
    requires forall r :: r in rows ==> r.publicId != row.publicId
    ensures row in rows + [row] && FirstRow(rows + [row], row.publicId) == row
    ensures WindowsFor(rows, row.publicId) == []
  {
    assert (rows + [row])[|rows|] == row;
    if rows != [] {
      assert (rows + [row])[1..] == rows[1..] + [row];
      NewIdComesFirst(rows[1..], row);
      WindowsOfAbsent(rows, row.publicId);
    }
  }

  lemma {:induction false} WindowsOfAbsent(rows: seq<JoinedRow>, id: string)
    requires forall r :: r in rows ==> r.publicId != id
    ensures WindowsFor(rows, id) == []
  {
    if rows != [] {
      assert rows[|rows| - 1] in rows;
      WindowsOfAbsent(rows[..|rows| - 1], id);
    }
  }

  ghost predicate HasId(rows: seq<JoinedRow>, id: string) { exists r :: r in rows && r.publicId == id }

  ghost predicate Gathered(rows: seq<JoinedRow>, id: string, rule: Rule) {
    HasId(rows, id) && rule == RuleFor(rows, id)
  }

  /** The rule a row opens when its id is new. */
  function Opened(row: JoinedRow): Rule {
    Rule(row.publicId, row.effect, row.startsAt, row.endsAt, row.timezone, false, [])
  }

  function WithWindow(rule: Rule, row: JoinedRow): Rule {
    if row.window.Some? then rule.(hasWindow := true, windows := rule.windows + [row.window.value]) else rule
  }

  lemma NextRow(before: seq<JoinedRow>, row: JoinedRow, id: string)
    requires HasId(before, id) || id == row.publicId
    ensures Gathered(before + [row], id,
                     if id != row.publicId then RuleFor(before, id)
                     else WithWindow(if HasId(before, id) then RuleFor(before, id) else Opened(row), row))
  {
    assert (before + [row])[|before|] == row;
    assert (before + [row])[..|before|] == before;
    if HasId(before, id) {
      FirstRowIsStable(before, [row], id);
    } else {
      NewIdComesFirst(before, row);
    }
  }

  /**
   * The gathering loop of matchingPermissions: one rule for each id in order of first
   * appearance, its fields those of the id's first row, its windows those of all its rows.
   */
  method GatherRules(rows: seq<JoinedRow>) returns (rules: seq<Rule>)
    ensures |rules| == |Ids(rows)|
    ensures forall i :: 0 <= i < |rules| ==> Gathered(rows, Ids(rows)[i], rules[i])
  {
    hide RuleFor;
    var ordered: seq<string> := [];
    var byId: map<string, Rule> := map[];
    for n := 0 to |rows|
      invariant ordered == Ids(rows[..n])
      invariant forall id :: id in byId <==> id in ordered
      invariant forall id :: id in byId ==> Gathered(rows[..n], id, byId[id])
    {
      var row := rows[n];
      ghost var before := rows[..n];
      assert rows[..n + 1] == before + [row];
      assert rows[..n + 1][..n] == before;
      IdsAreTheRowIds(before);
      forall id | id in byId || id == row.publicId {
        NextRow(before, row, id);
      }
      if row.publicId !in byId {
        byId := byId[row.publicId := Opened(row)];
        ordered := ordered + [row.publicId];
      }
      byId := byId[row.publicId := WithWindow(byId[row.publicId], row)];
    }
    assert rows[..|rows|] == rows;
    rules := [];
    for i := 0 to |ordered|
      invariant |rules| == i
      invariant forall k :: 0 <= k < i ==> Gathered(rows, ordered[k], rules[k])
    {
      rules := rules + [byId[ordered[i]]];
    }
  }

  // ---- ruleAdmits --------------------------------------------------------------------

  datatype EvalError = UnknownZone | BadWindow(error: TimeError)

  /** The first window that cannot be read is an error; the first that admits ends the scan. */
  function AnyAdmits(windows: seq<Window>, local: Local): Result<bool, EvalError> {
    if windows == [] then Ok(false)
    else
      match WindowAdmits(windows[0], local.weekday, local.second)
      case Err(e) => Err(BadWindow(e))
      case Ok(true) => Ok(true)
      case Ok(false) => AnyAdmits(windows[1..], local)
  }

  predicate InValidity(startsAt: Option<int>, endsAt: Option<int>, at: int) {
    (startsAt.Some? ==> startsAt.value <= at) && (endsAt.Some? ==> at < endsAt.value)
  }

  function ZoneOf(timezone: Option<string>, siteZone: string): string {
    var zone := if timezone.Some? && TrimSpace(timezone.value) != "" then timezone.value else siteZone;
    if zone == "" then "UTC" else zone
  }

  function RuleAdmits(rule: Rule, now: Instant): Result<bool, EvalError> {
    if rule.startsAt.Some? && now.at < rule.startsAt.value then Ok(false)
    else if rule.endsAt.Some? && !(now.at < rule.endsAt.value) then Ok(false)
    else if !rule.hasWindow then Ok(true)
    else
      var zone := ZoneOf(rule.timezone, now.siteZone);
      if zone !in now.clocks then Err(UnknownZone) else AnyAdmits(rule.windows, now.clocks[zone])
  }

  // ---- The scan ----------------------------------------------------------------------

  datatype Reason =
    | Allowed | TerminalDisabled | CompanyInactive | SiteInactive | ApplicationOff | PersonUnknown | PersonInactive
    | PermissionNotYet | PermissionExpired | CredentialUnknown | CredentialRevoked | CredentialSuspended
    | CredentialNotYet | CredentialExpired | OutsideSchedule | ExplicitDeny | NoPermission

  predicate Stops(rule: Rule, now: Instant) {
    RuleAdmits(rule, now).Err? || (RuleAdmits(rule, now) == Ok(true) && rule.effect == Deny)
  }

  predicate Grants(rule: Rule, now: Instant) {
    RuleAdmits(rule, now) == Ok(true) && rule.effect == Allow
  }

  /** The rules grant: none is in error, none denies, and one allows. */
  ghost predicate RulesGrant(rules: seq<Rule>, now: Instant) {
    (forall i :: 0 <= i < |rules| ==> !Stops(rules[i], now)) && (exists i :: 0 <= i < |rules| && Grants(rules[i], now))
  }

  /**
   * The loop at the end of Authorize. A refusal names the first rule that stops the scan; a
   * grant names the first rule that allows.
   */
  method ScanRules(rules: seq<Rule>, now: Instant) returns (reason: Reason, matched: Option<string>)
    ensures reason == Allowed <==> RulesGrant(rules, now)
    ensures reason == Allowed ==>
              exists i :: 0 <= i < |rules| && Grants(rules[i], now) && matched == Some(rules[i].publicId)
                          && forall j :: 0 <= j < i ==> !Grants(rules[j], now)
    ensures reason == NoPermission <==> forall i :: 0 <= i < |rules| ==> RuleAdmits(rules[i], now) == Ok(false)
    ensures reason == ExplicitDeny <==>
              exists i :: 0 <= i < |rules| && RuleAdmits(rules[i], now).Ok? && Stops(rules[i], now)
                          && forall j :: 0 <= j < i ==> !Stops(rules[j], now)
    ensures reason == ExplicitDeny ==>
              exists i :: 0 <= i < |rules| && RuleAdmits(rules[i], now) == Ok(true) && rules[i].effect == Deny
                          && matched == Some(rules[i].publicId) && forall j :: 0 <= j < i ==> !Stops(rules[j], now)
    ensures reason == NoPermission || reason == OutsideSchedule ==> matched == None
    ensures reason in {Allowed, NoPermission, ExplicitDeny, OutsideSchedule}
  {
    var allowed := None;
    for i := 0 to |rules|
      invariant forall j :: 0 <= j < i ==> !Stops(rules[j], now)
      invariant allowed == None ==> forall j :: 0 <= j < i ==> RuleAdmits(rules[j], now) == Ok(false)
      invariant allowed.Some? ==>
                  exists k :: 0 <= k < i && Grants(rules[k], now) && allowed == Some(rules[k].publicId)
                              && forall j :: 0 <= j < k ==> !Grants(rules[j], now)
    {
      var admits := RuleAdmits(rules[i], now);
      if admits.Err? {
        assert Stops(rules[i], now);
        return OutsideSchedule, None;
      }
      if admits.value {
        if rules[i].effect == Deny {
          assert Stops(rules[i], now);
          return ExplicitDeny, Some(rules[i].publicId);
        }
        if allowed == None {
          assert Grants(rules[i], now);
          allowed := Some(rules[i].publicId);
        }
      }
    }
    if allowed == None {
      return NoPermission, None;
    }
    return Allowed, allowed;
  }

  // ---- What the rows mean, whatever their order ----------------------------------------

  /** Rows of one permission repeat its columns. */
  ghost predicate Consistent(rows: seq<JoinedRow>) {
    forall r, s :: r in rows && s in rows && r.publicId == s.publicId ==>
      r.effect == s.effect && r.startsAt == s.startsAt && r.endsAt == s.endsAt && r.timezone == s.timezone
  }

  predicate Readable(w: Window) {
    ParseWindowTime(w.startTime).Ok? && ParseWindowTime(w.endTime).Ok?
  }

  predicate Malformed(r: JoinedRow) { r.window.Some? && !Readable(r.window.value) }

  predicate Valid(r: JoinedRow, now: Instant) { InValidity(r.startsAt, r.endsAt, now.at) }

  /** The row's own window admits the moment. */
  predicate RowAdmits(r: JoinedRow, now: Instant) {
    var zone := ZoneOf(r.timezone, now.siteZone);
    r.window.Some? && zone in now.clocks
    && WindowAdmits(r.window.value, now.clocks[zone].weekday, now.clocks[zone].second) == Ok(true)
  }

  ghost predicate Scheduled(rows: seq<JoinedRow>, id: string) {
    exists r :: r in rows && r.publicId == id && r.window.Some?
  }

  /** The permission a row belongs to is in force: in its validity, and unscheduled or inside a window. */
  ghost predicate InForce(rows: seq<JoinedRow>, r: JoinedRow, now: Instant) {
    Valid(r, now) && (!Scheduled(rows, r.publicId) || exists s :: s in rows && s.publicId == r.publicId && RowAdmits(s, now))
  }

  ghost predicate ZonesKnown(rows: seq<JoinedRow>, now: Instant) {
    forall r :: r in rows && Valid(r, now) && r.window.Some? ==> ZoneOf(r.timezone, now.siteZone) in now.clocks
  }

  /** The meaning of a set of rows: nothing here depends on their order. */
  ghost predicate RowsMeanGrant(rows: seq<JoinedRow>, now: Instant) {
    && ZonesKnown(rows, now)
    && (exists r :: r in rows && r.effect == Allow && InForce(rows, r, now))
    && (forall r :: r in rows && r.effect == Deny ==> !InForce(rows, r, now))
  }

  /** What the evaluator answers for rows in a given order. */
  ghost predicate RowsGrant(rows: seq<JoinedRow>, now: Instant) {
    && (forall id :: id in Ids(rows) ==> HasId(rows, id) && !Stops(RuleFor(rows, id), now))
    && (exists id :: id in Ids(rows) && HasId(rows, id) && Grants(RuleFor(rows, id), now))
  }

  lemma {:induction false} WindowsComeFromRows(rows: seq<JoinedRow>, id: string)
    ensures forall w :: w in WindowsFor(rows, id) <==> exists r :: r in rows && r.publicId == id && r.window == Some(w)
  {
    if rows != [] {
      var prefix, last := rows[..|rows| - 1], rows[|rows| - 1];
      WindowsComeFromRows(prefix, id);
      assert rows == prefix + [last];
      forall w ensures w in WindowsFor(rows, id) <==> exists r :: r in rows && r.publicId == id && r.window == Some(w) {
        if last.publicId == id && last.window == Some(w) {
          assert last in rows;
        } else if r :| r in rows && r.publicId == id && r.window == Some(w) {
          assert r in prefix;
        }
      }
    }
  }

  predicate Admits(w: Window, local: Local) { WindowAdmits(w, local.weekday, local.second) == Ok(true) }

  /** With readable windows the scan is "some window admits"; an error always has a malformed window behind it. */
  lemma {:induction false} AnyAdmitsMeans(windows: seq<Window>, local: Local)
    ensures AnyAdmits(windows, local).Err? ==> exists w :: w in windows && !Readable(w)
    ensures AnyAdmits(windows, local) == Ok(true) ==> exists w :: w in windows && Admits(w, local)
    ensures AnyAdmits(windows, local) == Ok(false) ==> forall w :: w in windows ==> Readable(w) && !Admits(w, local)
  {
    if windows != [] {
      AnyAdmitsMeans(windows[1..], local);
      assert windows[0] in windows;
      assert forall w :: w in windows ==> w == windows[0] || w in windows[1..];
      assert forall w :: w in windows[1..] ==> w in windows;
    }
  }

  /** What evaluating one gathered rule says about the rows it came from. */
  ghost predicate Explained(rows: seq<JoinedRow>, r: JoinedRow, now: Instant)
    requires r in rows
  {
    var rule := RuleFor(rows, r.publicId);
    var admits := RuleAdmits(rule, now);
    && rule.effect == r.effect
    && (admits == Ok(true) ==> InForce(rows, r, now))
    && (admits == Ok(false) ==> !InForce(rows, r, now))
    && (admits == Ok(false) && Valid(r, now) ==> forall s :: s in rows && s.publicId == r.publicId ==> !Malformed(s))
    && (admits == Err(UnknownZone) <==>
          Valid(r, now) && Scheduled(rows, r.publicId) && ZoneOf(r.timezone, now.siteZone) !in now.clocks)
    && (admits.Err? && admits != Err(UnknownZone) ==>
          Valid(r, now) && exists s :: s in rows && s.publicId == r.publicId && Malformed(s))
  }

  lemma RuleIsExplained(rows: seq<JoinedRow>, r: JoinedRow, now: Instant)
    requires Consistent(rows) && r in rows
    ensures Explained(rows, r, now)
  {
    hide WindowAdmits;
    hide ParseWindowTime;
    hide TrimSpace;
    var id := r.publicId;
    var ws := WindowsFor(rows, id);
    WindowsComeFromRows(rows, id);
    ScheduledHasWindows(rows, id);
    if ws != [] {
      if Valid(r, now) && ZoneOf(r.timezone, now.siteZone) in now.clocks {
        var local := now.clocks[ZoneOf(r.timezone, now.siteZone)];
        AnyAdmitsMeans(ws, local);
        AnyAdmitsIsNotZoneError(ws, local);
        if AnyAdmits(ws, local) == Ok(false) {
          forall s | s in rows && s.publicId == id ensures !Malformed(s) {
            if s.window.Some? { assert s.window.value in ws; }
          }
        }
        if w :| w in ws && Admits(w, local) {
          var s :| s in rows && s.publicId == id && s.window == Some(w);
          assert RowAdmits(s, now);
        }
      }
    }
  }

  lemma ScheduledHasWindows(rows: seq<JoinedRow>, id: string)
    ensures Scheduled(rows, id) <==> WindowsFor(rows, id) != []
  {
    WindowsComeFromRows(rows, id);
    var ws := WindowsFor(rows, id);
    if Scheduled(rows, id) {
      var r :| r in rows && r.publicId == id && r.window.Some?;
      assert r.window.value in ws;
    }
    if ws != [] {
      assert ws[0] in ws;
    }
  }

  lemma {:induction false} AnyAdmitsIsNotZoneError(windows: seq<Window>, local: Local)
    ensures AnyAdmits(windows, local) != Err(UnknownZone)
  {
    if windows != [] { AnyAdmitsIsNotZoneError(windows[1..], local); }
  }

  lemma ThreeOutcomes(admits: Result<bool, EvalError>)
    ensures admits == Ok(true) || admits == Ok(false) || admits.Err?
  {
    match admits
    case Ok(b) => if b { assert admits == Ok(true); } else { assert admits == Ok(false); }
    case Err(_) =>
  }

  lemma EveryRowExplained(rows: seq<JoinedRow>, now: Instant)
    requires Consistent(rows)
    ensures forall r :: r in rows ==> r.publicId in Ids(rows) && Explained(rows, r, now)
    ensures forall id :: id in Ids(rows) ==> HasId(rows, id)
  {
    hide Explained;
    IdsAreTheRowIds(rows);
    forall r | r in rows ensures r.publicId in Ids(rows) && Explained(rows, r, now) {
      RuleIsExplained(rows, r, now);
    }
  }

  lemma GrantIsMeant(rows: seq<JoinedRow>, now: Instant)
    requires Consistent(rows) && RowsGrant(rows, now)
    ensures RowsMeanGrant(rows, now)
  {
    hide RuleAdmits;
    hide ZoneOf;
    hide InForce;
    hide RuleFor;
    EveryRowExplained(rows, now);
    forall r | r in rows && Valid(r, now) && r.window.Some? ensures ZoneOf(r.timezone, now.siteZone) in now.clocks {
      assert HasId(rows, r.publicId) && Explained(rows, r, now);
      assert Scheduled(rows, r.publicId);
    }
    var id :| id in Ids(rows) && HasId(rows, id) && Grants(RuleFor(rows, id), now);
    var r :| r in rows && r.publicId == id;
    assert r.effect == Allow && InForce(rows, r, now);
    forall d | d in rows && d.effect == Deny ensures !InForce(rows, d, now) {
      assert Explained(rows, d, now);
      assert !Stops(RuleFor(rows, d.publicId), now);
      ThreeOutcomes(RuleAdmits(RuleFor(rows, d.publicId), now));
    }
  }

  /** No rule's scan meets a window it cannot read. */
  ghost predicate AllReadable(rows: seq<JoinedRow>, now: Instant) {
    forall r :: r in rows ==> OnlyZoneErrors(rows, r, now)
  }

  ghost predicate OnlyZoneErrors(rows: seq<JoinedRow>, r: JoinedRow, now: Instant)
    requires r in rows
  {
    var admits := RuleAdmits(RuleFor(rows, r.publicId), now);
    admits.Err? ==> admits == Err(UnknownZone)
  }

  lemma MeantIsGranted(rows: seq<JoinedRow>, now: Instant)
    requires Consistent(rows) && RowsMeanGrant(rows, now) && AllReadable(rows, now)
    ensures RowsGrant(rows, now)
  {
    hide RuleAdmits;
    hide ZoneOf;
    hide InForce;
    hide RuleFor;
    hide Malformed;
    EveryRowExplained(rows, now);
    forall id | id in Ids(rows) ensures HasId(rows, id) && !Stops(RuleFor(rows, id), now) {
      var r :| r in rows && r.publicId == id;
      assert Explained(rows, r, now) && OnlyZoneErrors(rows, r, now);
      if Valid(r, now) && Scheduled(rows, id) {
        var s :| s in rows && s.publicId == id && s.window.Some?;
        assert ZoneOf(s.timezone, now.siteZone) in now.clocks;
      }
    }
    var r :| r in rows && r.effect == Allow && InForce(rows, r, now);
    assert Explained(rows, r, now);
    assert !Stops(RuleFor(rows, r.publicId), now);
    ThreeOutcomes(RuleAdmits(RuleFor(rows, r.publicId), now));
    assert Grants(RuleFor(rows, r.publicId), now);
  }

  /**
   * Rows in any order mean the same: with readable windows the evaluator's answer is the
   * order-free statement.
   */
  lemma GrantIsWhatTheRowsMean(rows: seq<JoinedRow>, now: Instant)
    requires Consistent(rows)
    requires forall r :: r in rows ==> !Malformed(r)
    ensures RowsGrant(rows, now) <==> RowsMeanGrant(rows, now)
  {
    hide *;
    if RowsGrant(rows, now) {
      GrantIsMeant(rows, now);
    }
    if RowsMeanGrant(rows, now) {
      ReadableRows(rows, now);
      MeantIsGranted(rows, now);
    }
  }

  /** So the grant is the same for every order of rows whose windows can be read. */
  lemma EveryOrderGrantsAlike(rows: seq<JoinedRow>, other: seq<JoinedRow>, now: Instant)
    requires Consistent(rows) && Reorders(rows, other)
    requires forall r :: r in rows ==> !Malformed(r)
    ensures RowsGrant(rows, now) <==> RowsGrant(other, now)
  {
    hide RowsGrant;
    hide RowsMeanGrant;
    hide Malformed;
    ReorderedRows(rows, other);
    MeaningIgnoresOrder(rows, other, now);
    GrantIsWhatTheRowsMean(rows, now);
    GrantIsWhatTheRowsMean(other, now);
  }

  lemma ReadableRows(rows: seq<JoinedRow>, now: Instant)
    requires Consistent(rows)
    requires forall r :: r in rows ==> !Malformed(r)
    ensures AllReadable(rows, now)
  {
    hide RuleAdmits;
    hide RuleFor;
    hide Malformed;
    hide InForce;
    EveryRowExplained(rows, now);
    forall r | r in rows ensures OnlyZoneErrors(rows, r, now) {
      assert Explained(rows, r, now);
    }
  }

  // ---- When the order matters ----------------------------------------------------------

  ghost predicate Reorders(rows: seq<JoinedRow>, other: seq<JoinedRow>) { multiset(rows) == multiset(other) }

  lemma ReorderedRows(rows: seq<JoinedRow>, other: seq<JoinedRow>)
    requires Reorders(rows, other)
    ensures forall r :: r in rows <==> r in other
  {
    forall r ensures r in rows <==> r in other {
      assert r in rows <==> r in multiset(rows);
      assert r in other <==> r in multiset(other);
    }
  }

  lemma MeaningIgnoresOrder(rows: seq<JoinedRow>, other: seq<JoinedRow>, now: Instant)
    requires forall r :: r in rows <==> r in other
    ensures Consistent(rows) <==> Consistent(other)
    ensures RowsMeanGrant(rows, now) <==> RowsMeanGrant(other, now)
    ensures Fragile(rows, now) <==> Fragile(other, now)
  {
    hide Valid;
    hide RowAdmits;
    hide ZoneOf;
    hide Malformed;
    forall r ensures InForce(rows, r, now) <==> InForce(other, r, now) {
      assert Scheduled(rows, r.publicId) <==> Scheduled(other, r.publicId);
    }
  }

  /** A rule in its validity has a window that cannot be read, and every such rule also has one that admits. */
  ghost predicate Fragile(rows: seq<JoinedRow>, now: Instant) {
    && (exists m :: m in rows && Valid(m, now) && Malformed(m))
    && (forall m :: m in rows && Valid(m, now) && Malformed(m) ==>
          exists s :: s in rows && s.publicId == m.publicId && RowAdmits(s, now))
  }

  function Select(rows: seq<JoinedRow>, malformed: bool): seq<JoinedRow> {
    if rows == [] then []
    else
      var before, last := Select(rows[..|rows| - 1], malformed), rows[|rows| - 1];
      if Malformed(last) == malformed then before + [last] else before
  }

  lemma {:induction false} SelectSplits(rows: seq<JoinedRow>)
    ensures multiset(Select(rows, true)) + multiset(Select(rows, false)) == multiset(rows)
  {
    hide Malformed;
    if rows != [] {
      SelectSplits(rows[..|rows| - 1]);
      assert rows == rows[..|rows| - 1] + [rows[|rows| - 1]];
    }
  }

  lemma {:induction false} SelectedRows(rows: seq<JoinedRow>, malformed: bool)
    ensures forall r :: r in Select(rows, malformed) <==> r in rows && Malformed(r) == malformed
  {
    hide Malformed;
    if rows != [] {
      SelectedRows(rows[..|rows| - 1], malformed);
      assert rows == rows[..|rows| - 1] + [rows[|rows| - 1]];
    }
  }

  lemma {:induction false} WindowsOfConcat(a: seq<JoinedRow>, b: seq<JoinedRow>, id: string)
    ensures WindowsFor(a + b, id) == WindowsFor(a, id) + WindowsFor(b, id)
  {
    if b == [] {
      assert a + b == a;
    } else {
      WindowsOfConcat(a, b[..|b| - 1], id);
      assert (a + b)[..|a + b| - 1] == a + b[..|b| - 1];
    }
  }

  lemma {:induction false} AdmitsInReadablePrefix(good: seq<Window>, rest: seq<Window>, local: Local)
    requires forall w :: w in good ==> Readable(w)
    requires exists w :: w in good && Admits(w, local)
    ensures AnyAdmits(good + rest, local) == Ok(true)
  {
    hide ParseWindowTime;
    assert (good + rest)[0] == good[0] && good[0] in good;
    assert (good + rest)[1..] == good[1..] + rest;
    if !Admits(good[0], local) {
      AdmitsInReadablePrefix(good[1..], rest, local);
    }
  }

  /** Readable windows first: the rules of a fragile set are never in error over a window. */
  lemma ReadableFirst(rows: seq<JoinedRow>, now: Instant)
    requires Consistent(rows) && Fragile(rows, now)
    ensures AllReadable(Select(rows, false) + Select(rows, true), now)
  {
    hide RuleAdmits;
    hide RuleFor;
    hide Consistent;
    hide Fragile;
    hide Select;
    forall r | r in Select(rows, false) + Select(rows, true)
      ensures OnlyZoneErrors(Select(rows, false) + Select(rows, true), r, now)
    {
      ReadableFirstAt(rows, r, now);
    }
  }

  lemma ReadableFirstAt(rows: seq<JoinedRow>, r: JoinedRow, now: Instant)
    requires Consistent(rows) && Fragile(rows, now) && r in Select(rows, false) + Select(rows, true)
    ensures OnlyZoneErrors(Select(rows, false) + Select(rows, true), r, now)
  {
    hide RuleAdmits;
    hide RuleFor;
    hide Malformed;
    hide InForce;
    hide Scheduled;
    hide ZoneOf;
    hide Valid;
    hide RowAdmits;
    hide RowsMeanGrant;
    hide Select;
    var all := Select(rows, false) + Select(rows, true);
    SelectedRows(rows, true);
    SelectedRows(rows, false);
    MeaningIgnoresOrder(rows, all, now);
    RuleIsExplained(all, r, now);
    if m :| m in all && m.publicId == r.publicId && Valid(r, now) && Malformed(m) {
      ValidTogether(all, r, m, now);
      assert m in rows && Malformed(m) && Valid(m, now);
      var s :| s in rows && s.publicId == m.publicId && RowAdmits(s, now);
      AdmittedFirst(Select(rows, false), Select(rows, true), r, s, now);
    }
  }

  lemma ValidTogether(rows: seq<JoinedRow>, r: JoinedRow, s: JoinedRow, now: Instant)
    requires Consistent(rows) && r in rows && s in rows && r.publicId == s.publicId
    ensures Valid(r, now) <==> Valid(s, now)
    ensures ZoneOf(r.timezone, now.siteZone) == ZoneOf(s.timezone, now.siteZone)
  {
  }

  lemma AdmittedFirst(good: seq<JoinedRow>, bad: seq<JoinedRow>, r: JoinedRow, s: JoinedRow, now: Instant)
    requires Consistent(good + bad) && r in good + bad && s in good + bad && r.publicId == s.publicId
    requires forall g :: g in good ==> !Malformed(g)
    requires forall b :: b in bad ==> Malformed(b)
    requires RowAdmits(s, now) && Valid(r, now)
    ensures RuleAdmits(RuleFor(good + bad, r.publicId), now) == Ok(true)
  {
    hide ParseWindowTime;
    hide TrimSpace;
    hide TimesAdmit;
    var id := r.publicId;
    var local := now.clocks[ZoneOf(s.timezone, now.siteZone)];
    ValidTogether(good + bad, r, s, now);
    WindowsOfConcat(good, bad, id);
    WindowsComeFromRows(good, id);
    assert s in good;
    assert s.window.value in WindowsFor(good, id) && Admits(s.window.value, local);
    AdmitsInReadablePrefix(WindowsFor(good, id), WindowsFor(bad, id), local);
  }

  /** Unreadable windows first: the rule they belong to is in error, and nothing is granted. */
  lemma UnreadableFirst(rows: seq<JoinedRow>, m: JoinedRow, now: Instant)
    requires Consistent(rows) && m in rows && Valid(m, now) && Malformed(m)
    ensures !RowsGrant(Select(rows, true) + Select(rows, false), now)
  {
    hide RuleAdmits;
    hide RuleFor;
    hide Malformed;
    hide Valid;
    hide Select;
    hide Fragile;
    hide RowsMeanGrant;
    var all := Select(rows, true) + Select(rows, false);
    SelectedRows(rows, true);
    SelectedRows(rows, false);
    MeaningIgnoresOrder(rows, all, now);
    IdsAreTheRowIds(all);
    assert m in all;
    UnreadableRuleErrs(Select(rows, true), Select(rows, false), m, now);
    assert m.publicId in Ids(all) && Stops(RuleFor(all, m.publicId), now);
  }

  lemma UnreadableRuleErrs(bad: seq<JoinedRow>, good: seq<JoinedRow>, m: JoinedRow, now: Instant)
    requires Consistent(bad + good) && m in bad && Valid(m, now)
    requires forall b :: b in bad ==> Malformed(b)
    ensures RuleAdmits(RuleFor(bad + good, m.publicId), now).Err?
  {
    hide ParseWindowTime;
    hide ZoneOf;
    hide TimesAdmit;
    var id := m.publicId;
    WindowsOfConcat(bad, good, id);
    WindowsComeFromRows(bad, id);
    var ws := WindowsFor(bad, id);
    assert m.window.value in ws;
    assert ws[0] in ws && !Readable(ws[0]);
    assert WindowsFor(bad + good, id)[0] == ws[0];
    ValidTogether(bad + good, m, FirstRow(bad + good, id), now);
  }

  // ---- Orders the query can return --------------------------------------------------------

  /** The rows of one id, in row order. */
  function Group(rows: seq<JoinedRow>, id: string): seq<JoinedRow> {
    if rows == [] then []
    else
      var before, row := Group(rows[..|rows| - 1], id), rows[|rows| - 1];
      if row.publicId == id then before + [row] else before
  }

  /** Reordered only among the rows of one id: ORDER BY p.public_id fixes the rest. */
  ghost predicate WithinIds(rows: seq<JoinedRow>, other: seq<JoinedRow>) {
    && |other| == |rows| && (forall i :: 0 <= i < |rows| ==> other[i].publicId == rows[i].publicId)
    && Reorders(rows, other)
  }

  lemma {:induction false} GroupOfConcat(a: seq<JoinedRow>, b: seq<JoinedRow>, id: string)
    ensures Group(a + b, id) == Group(a, id) + Group(b, id)
  {
    if b == [] {
      assert a + b == a;
    } else {
      GroupOfConcat(a, b[..|b| - 1], id);
      assert (a + b)[..|a + b| - 1] == a + b[..|b| - 1];
    }
  }

  /** A rule is decided by the rows of its id. */
  lemma GroupDecides(rows: seq<JoinedRow>, id: string)
    ensures WindowsFor(rows, id) == WindowsFor(Group(rows, id), id)
    ensures forall r :: r in Group(rows, id) <==> r in rows && r.publicId == id
  {
    GroupWindows(rows, id);
    GroupHolds(rows, id);
  }

  lemma {:induction false} GroupWindows(rows: seq<JoinedRow>, id: string)
    ensures WindowsFor(rows, id) == WindowsFor(Group(rows, id), id)
  {
    if rows != [] {
      var prefix, last := rows[..|rows| - 1], rows[|rows| - 1];
      GroupWindows(prefix, id);
      if last.publicId == id {
        assert Group(rows, id)[..|Group(rows, id)| - 1] == Group(prefix, id);
      }
    }
  }

  lemma {:induction false} GroupHolds(rows: seq<JoinedRow>, id: string)
    ensures forall r :: r in Group(rows, id) <==> r in rows && r.publicId == id
  {
    if rows != [] {
      var prefix, last := rows[..|rows| - 1], rows[|rows| - 1];
      GroupHolds(prefix, id);
      assert rows == prefix + [last];
      forall r ensures r in rows <==> r in prefix || r == last {}
      assert Group(rows, id) == if last.publicId == id then Group(prefix, id) + [last] else Group(prefix, id);
    }
  }

  /** The last row of an id, and the rows without it. */
  lemma {:induction false} TakeLast(rows: seq<JoinedRow>, id: string) returns (row: JoinedRow, rest: seq<JoinedRow>)
    requires Group(rows, id) != []
    ensures row.publicId == id && |rest| + 1 == |rows| && multiset(rest) + multiset{row} == multiset(rows)
    ensures Group(rows, id) == Group(rest, id) + [row]
    ensures forall other :: other != id ==> Group(rest, other) == Group(rows, other)
  {
    var prefix, last := rows[..|rows| - 1], rows[|rows| - 1];
    assert rows == prefix + [last];
    if last.publicId == id {
      return last, prefix;
    }
    var inner;
    row, inner := TakeLast(prefix, id);
    rest := inner + [last];
    assert rest[..|rest| - 1] == inner;
  }

  /** Rows can be rearranged within their ids so that every id has them in the order of `goal`. */
  lemma {:induction false} Arrange(rows: seq<JoinedRow>, goal: seq<JoinedRow>) returns (other: seq<JoinedRow>)
    requires |rows| == |goal| && forall id :: |Group(rows, id)| == |Group(goal, id)|
    ensures |other| == |rows| && forall i :: 0 <= i < |rows| ==> other[i].publicId == rows[i].publicId
    ensures multiset(other) == multiset(goal) && forall id :: Group(other, id) == Group(goal, id)
  {
    if rows == [] {
      return [];
    }
    var prefix, last := rows[..|rows| - 1], rows[|rows| - 1];
    assert |Group(rows, last.publicId)| == |Group(prefix, last.publicId)| + 1;
    var row, rest := TakeLast(goal, last.publicId);
    forall id ensures |Group(prefix, id)| == |Group(rest, id)| {
      assert |Group(rows, id)| == |Group(goal, id)|;
    }
    var before := Arrange(prefix, rest);
    other := before + [row];
    assert other[..|other| - 1] == before;
    forall id ensures Group(other, id) == Group(goal, id) {
      assert Group(before, id) == Group(rest, id);
    }
  }

  lemma {:induction false} GroupCount(rows: seq<JoinedRow>, id: string, r: JoinedRow)
    ensures multiset(Group(rows, id))[r] == if r.publicId == id then multiset(rows)[r] else 0
  {
    if rows != [] {
      GroupCount(rows[..|rows| - 1], id, r);
      assert rows == rows[..|rows| - 1] + [rows[|rows| - 1]];
    }
  }

  lemma ReorderedGroups(rows: seq<JoinedRow>, goal: seq<JoinedRow>, id: string)
    requires Reorders(rows, goal)
    ensures |Group(rows, id)| == |Group(goal, id)|
  {
    forall r ensures multiset(Group(rows, id))[r] == multiset(Group(goal, id))[r] {
      GroupCount(rows, id, r);
      GroupCount(goal, id, r);
    }
    assert multiset(Group(rows, id)) == multiset(Group(goal, id));
    assert |multiset(Group(rows, id))| == |Group(rows, id)| && |multiset(Group(goal, id))| == |Group(goal, id)|;
  }

  lemma SameGroupsGrantAlike(a: seq<JoinedRow>, b: seq<JoinedRow>, now: Instant)
    requires Consistent(a) && (forall r :: r in a <==> r in b) && forall id :: Group(a, id) == Group(b, id)
    ensures RowsGrant(a, now) <==> RowsGrant(b, now)
  {
    hide Stops;
    hide Grants;
    hide Group;
    IdsAreTheRowIds(a);
    IdsAreTheRowIds(b);
    forall id | HasId(a, id) ensures HasId(b, id) && RuleFor(a, id) == RuleFor(b, id) {
      GroupDecides(a, id);
      GroupDecides(b, id);
    }
  }

  /** Any reordering is matched, rule by rule, by one the query can return. */
  lemma WithinIdsSuffices(rows: seq<JoinedRow>, goal: seq<JoinedRow>, now: Instant) returns (other: seq<JoinedRow>)
    requires Consistent(rows) && Reorders(rows, goal)
    ensures WithinIds(rows, other) && (RowsGrant(other, now) <==> RowsGrant(goal, now))
  {
    hide Group;
    hide RowsGrant;
    forall id ensures |Group(rows, id)| == |Group(goal, id)| {
      ReorderedGroups(rows, goal, id);
    }
    assert |multiset(rows)| == |rows| && |multiset(goal)| == |goal|;
    other := Arrange(rows, goal);
    ReorderedRows(rows, other);
    ReorderedRows(rows, goal);
    MeaningIgnoresOrder(rows, other, now);
    SameGroupsGrantAlike(other, goal, now);
  }

  /**
   * Some order the query can return, the windows of a permission in any order, is answered
   * differently exactly when the rows mean a grant and a rule in its validity has both an
   * unreadable window and an admitting one.
   */
  lemma OrderMattersExactlyWhenFragile(rows: seq<JoinedRow>, now: Instant)
    requires Consistent(rows)
    ensures (exists other :: WithinIds(rows, other) && RowsGrant(other, now) != RowsGrant(rows, now))
       <==> RowsMeanGrant(rows, now) && Fragile(rows, now)
  {
    hide RowsGrant;
    hide RowsMeanGrant;
    hide Fragile;
    if RowsMeanGrant(rows, now) && Fragile(rows, now) {
      FragileOrders(rows, now);
      var first := WithinIdsSuffices(rows, Select(rows, false) + Select(rows, true), now);
      var last := WithinIdsSuffices(rows, Select(rows, true) + Select(rows, false), now);
      assert WithinIds(rows, first) && WithinIds(rows, last);
    }
    if other :| WithinIds(rows, other) && RowsGrant(other, now) != RowsGrant(rows, now) {
      ReorderedRows(rows, other);
      MeaningIgnoresOrder(rows, other, now);
      if RowsGrant(rows, now) {
        DifferenceIsFragile(rows, other, now);
      } else {
        DifferenceIsFragile(other, rows, now);
      }
    }
  }

  // ---- Two orders of one rule -----------------------------------------------------------

  const OFFICE := Window(127, "09:00:00", "17:00:00")
  const LATE := Window(127, "22:00:00", "24:00:00")

  /** A TIME column holds 24:00:00, and the parser refuses it. */
  lemma MidnightIsUnreadable()
    ensures ParseWindowTime("24:00:00") == Err(OutOfRange)
    ensures ParseWindowTime("09:00:00") == Ok(32400) && ParseWindowTime("17:00:00") == Ok(61200)
  {
    hide ParseWindowTime;
    ParsedThreeFields("24", "00", "00");
    ParsedThreeFields("09", "00", "00");
    ParsedThreeFields("17", "00", "00");
    assert "24:00:00" == "24" + ":" + ("00" + ":" + "00");
    assert "09:00:00" == "09" + ":" + ("00" + ":" + "00");
    assert "17:00:00" == "17" + ":" + ("00" + ":" + "00");
  }

  function AllowRow(window: Window): JoinedRow { JoinedRow("p", Allow, None, None, None, Some(window)) }

  /** Tuesday, ten in the morning, in the one known zone. */
  const TUESDAY_AT_TEN := Instant(0, map["UTC" := Local(2, 36000)], "UTC")

  lemma OfficeAdmits()
    ensures !Malformed(AllowRow(OFFICE)) && RowAdmits(AllowRow(OFFICE), TUESDAY_AT_TEN)
    ensures Malformed(AllowRow(LATE)) && Valid(AllowRow(LATE), TUESDAY_AT_TEN)
  {
    hide ParseWindowTime;
    MidnightIsUnreadable();
  }

  lemma OneRuleIsFragile(good: JoinedRow, bad: JoinedRow, now: Instant)
    requires good == AllowRow(OFFICE) && bad == AllowRow(LATE)
    requires RowAdmits(good, now) && Valid(good, now) && Valid(bad, now) && Malformed(bad)
    requires ZoneOf(None, now.siteZone) in now.clocks
    ensures Consistent([good, bad]) && RowsMeanGrant([good, bad], now) && Fragile([good, bad], now)
  {
    hide RowAdmits;
    hide Malformed;
    hide Valid;
    hide ZoneOf;
    assert good in [good, bad] && bad in [good, bad];
    assert InForce([good, bad], good, now);
  }

  lemma SelectedTwo(good: JoinedRow, bad: JoinedRow)
    requires !Malformed(good) && Malformed(bad)
    ensures Select([good, bad], false) == [good] && Select([good, bad], true) == [bad]
  {
    hide Malformed;
    assert [good, bad][..1] == [good] && [good][..0] == [];
    assert Select([good], false) == [good] && Select([good], true) == [];
  }

  lemma SwappedWithinIds(good: JoinedRow, bad: JoinedRow)
    requires good.publicId == bad.publicId
    ensures WithinIds([good, bad], [bad, good])
  {
  }

  lemma TwoRowsTwoAnswers(good: JoinedRow, bad: JoinedRow, now: Instant)
    requires !Malformed(good) && Malformed(bad) && good.publicId == bad.publicId
    requires Consistent([good, bad]) && RowsMeanGrant([good, bad], now) && Fragile([good, bad], now)
    ensures WithinIds([good, bad], [bad, good])
    ensures RowsGrant([good, bad], now) && !RowsGrant([bad, good], now)
  {
    hide *;
    var rows := [good, bad];
    SelectedTwo(good, bad);
    SwappedWithinIds(good, bad);
    assert Select(rows, false) + Select(rows, true) == rows && Select(rows, true) + Select(rows, false) == [bad, good];
    FragileOrders(rows, now);
  }

  lemma SameRule()
    ensures AllowRow(OFFICE).publicId == AllowRow(LATE).publicId
    ensures Valid(AllowRow(OFFICE), TUESDAY_AT_TEN) && ZoneOf(None, TUESDAY_AT_TEN.siteZone) in TUESDAY_AT_TEN.clocks
  {
  }

  /** One ALLOW with a window that admits and one that cannot be read: the order of the two rows decides. */
  lemma TwoWindowsTwoAnswers()
    ensures var good, bad := AllowRow(OFFICE), AllowRow(LATE);
            && WithinIds([good, bad], [bad, good])
            && RowsMeanGrant([good, bad], TUESDAY_AT_TEN) && Fragile([good, bad], TUESDAY_AT_TEN)
            && RowsGrant([good, bad], TUESDAY_AT_TEN) && !RowsGrant([bad, good], TUESDAY_AT_TEN)
  {
    hide *;
    OfficeAdmits();
    SameRule();
    OneRuleIsFragile(AllowRow(OFFICE), AllowRow(LATE), TUESDAY_AT_TEN);
    TwoRowsTwoAnswers(AllowRow(OFFICE), AllowRow(LATE), TUESDAY_AT_TEN);
  }

  lemma FragileOrders(rows: seq<JoinedRow>, now: Instant)
    requires Consistent(rows) && RowsMeanGrant(rows, now) && Fragile(rows, now)
    ensures Reorders(rows, Select(rows, false) + Select(rows, true))
    ensures Reorders(rows, Select(rows, true) + Select(rows, false))
    ensures RowsGrant(Select(rows, false) + Select(rows, true), now)
    ensures !RowsGrant(Select(rows, true) + Select(rows, false), now)
  {
    hide RowsGrant;
    hide RowsMeanGrant;
    hide Valid;
    hide Malformed;
    hide Select;
    var good, bad := Select(rows, false), Select(rows, true);
    SelectSplits(rows);
    assert multiset(good + bad) == multiset(good) + multiset(bad);
    assert multiset(bad + good) == multiset(bad) + multiset(good);
    ReorderedRows(rows, good + bad);
    MeaningIgnoresOrder(rows, good + bad, now);
    ReadableFirst(rows, now);
    MeantIsGranted(good + bad, now);
    var m :| m in rows && Valid(m, now) && Malformed(m);
    UnreadableFirst(rows, m, now);
  }

  lemma DifferenceIsFragile(granted: seq<JoinedRow>, refused: seq<JoinedRow>, now: Instant)
    requires Consistent(granted) && Consistent(refused) && forall r :: r in granted <==> r in refused
    requires RowsGrant(granted, now) && !RowsGrant(refused, now)
    ensures RowsMeanGrant(granted, now) && Fragile(granted, now)
  {
    hide RowsGrant;
    hide RowsMeanGrant;
    hide Consistent;
    hide Valid;
    hide Malformed;
    hide RowAdmits;
    GrantIsMeant(granted, now);
    MeaningIgnoresOrder(granted, refused, now);
    RefusalHasUnreadable(refused, now);
    forall m | m in granted && Valid(m, now) && Malformed(m)
      ensures exists s :: s in granted && s.publicId == m.publicId && RowAdmits(s, now)
    {
      GrantedRescues(granted, m, now);
    }
  }

  lemma RefusalHasUnreadable(refused: seq<JoinedRow>, now: Instant)
    requires Consistent(refused) && RowsMeanGrant(refused, now) && !RowsGrant(refused, now)
    ensures exists m :: m in refused && Valid(m, now) && Malformed(m)
  {
    hide RuleAdmits;
    hide RuleFor;
    hide RowsGrant;
    hide RowsMeanGrant;
    hide Malformed;
    hide InForce;
    hide ZoneOf;
    if AllReadable(refused, now) {
      MeantIsGranted(refused, now);
    }
    var r :| r in refused && !OnlyZoneErrors(refused, r, now);
    RuleIsExplained(refused, r, now);
    var bad :| bad in refused && bad.publicId == r.publicId && Malformed(bad);
    ValidTogether(refused, r, bad, now);
  }

  /** Where the rows are granted, every rule with an unreadable window met an admitting one first. */
  lemma GrantedRescues(granted: seq<JoinedRow>, m: JoinedRow, now: Instant)
    requires Consistent(granted) && RowsGrant(granted, now)
    requires m in granted && Valid(m, now) && Malformed(m)
    ensures exists s :: s in granted && s.publicId == m.publicId && RowAdmits(s, now)
  {
    hide RuleAdmits;
    hide RuleFor;
    hide RowAdmits;
    hide ZoneOf;
    hide Malformed;
    IdsAreTheRowIds(granted);
    RuleIsExplained(granted, m, now);
    assert !Stops(RuleFor(granted, m.publicId), now);
    ThreeOutcomes(RuleAdmits(RuleFor(granted, m.publicId), now));
    MalformedIsScheduled(granted, m);
  }

  lemma MalformedIsScheduled(rows: seq<JoinedRow>, m: JoinedRow)
    requires m in rows && Malformed(m)
    ensures Scheduled(rows, m.publicId)
  {
  }
}
