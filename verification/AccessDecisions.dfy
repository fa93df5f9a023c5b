/**
 * Authorize over the tables (database/authorization.go): the gates in their order, the
 * permission query, and the decision. The tables' own statement of who may open a door,
 * `Permitted`, mentions neither the order of the gates nor the order of the rows.
 */
module AccessDecisions {
  import opened Options
  import opened Text
  import opened ScheduleWindows
  import opened Authorization

  // ---- Tables ------------------------------------------------------------------------

  datatype Device = Device(siteId: int, disabled: bool, active: bool, mode: string, hasKey: bool, deleted: bool)

  datatype Site = Site(companyId: int, active: bool, timezone: string, deleted: bool)

  datatype Person = Person(id: int, active: bool, validFrom: Option<int>, validUntil: Option<int>)

  datatype CredentialStatus = ActiveCredential | SuspendedCredential | RevokedCredential | OtherStatus

  datatype Credential = Credential(personId: int, status: CredentialStatus, validFrom: Option<int>, validUntil: Option<int>)

  datatype Scope = CompanyWide | AtSite(siteId: int) | AtTerminal(deviceId: int)

  datatype Permission = Permission(personId: int, scope: Scope, effect: Effect, startsAt: Option<int>, endsAt: Option<int>,
                                   scheduleId: Option<int>, application: Option<string>, active: bool, deleted: bool)

  datatype Schedule = Schedule(timezone: Option<string>, active: bool, deleted: bool, windows: seq<Window>)

  /** Live people and credentials are keyed as their unique indexes key them: by company and identifier. */
  datatype Tables = Tables(devices: map<int, Device>, sites: map<int, Site>, companies: map<int, bool>,
                           enabled: set<(int, string)>, people: map<(int, string), Person>,
                           credentials: map<(int, string), Credential>, permissions: map<string, Permission>,
                           schedules: map<int, Schedule>)

  datatype Request = Request(deviceId: int, externalId: string, credentialId: string, application: string, at: int)

  datatype Decision = Decision(granted: bool, reason: Reason, externalId: string, personId: Option<int>,
                               credentialId: Option<string>, application: string, matched: Option<string>)

  const MULTI_PURPOSE := "MULTI_PURPOSE"

  // ---- The gates, in the order the code takes them --------------------------------------

  datatype Terminal = Terminal(companyId: int, siteId: int, mode: string, zone: string)

  function TerminalGate(t: Tables, deviceId: int): Result<Terminal, Reason> {
    if deviceId !in t.devices || t.devices[deviceId].deleted then Err(TerminalDisabled)
    else
      var d := t.devices[deviceId];
      if d.siteId !in t.sites || t.sites[d.siteId].deleted then Err(TerminalDisabled)
      else
        var s := t.sites[d.siteId];
        if s.companyId !in t.companies then Err(TerminalDisabled)
        else if !t.companies[s.companyId] then Err(CompanyInactive)
        else if !s.active then Err(SiteInactive)
        else if !d.active || d.disabled || !d.hasKey then Err(TerminalDisabled)
        else Ok(Terminal(s.companyId, d.siteId, d.mode, s.timezone))
  }

  /** The capability a decision is made under; "" when the terminal is not dedicated to one. */
  function ApplicationOf(requested: string, mode: string): string {
    var named := if TrimSpace(requested) == "" then mode else TrimSpace(requested);
    if named == MULTI_PURPOSE then "" else named
  }

  function PersonGate(p: Person, at: int): Option<Reason> {
    if !p.active then Some(PersonInactive)
    else if p.validFrom.Some? && at < p.validFrom.value then Some(PermissionNotYet)
    else if p.validUntil.Some? && !(at < p.validUntil.value) then Some(PermissionExpired)
    else None
  }

  function CredentialGate(c: Credential, at: int): Option<Reason> {
    match c.status
    case RevokedCredential => Some(CredentialRevoked)
    case SuspendedCredential => Some(CredentialSuspended)
    case OtherStatus => Some(CredentialRevoked)
    case ActiveCredential =>
      if c.validFrom.Some? && at < c.validFrom.value then Some(CredentialNotYet)
      else if c.validUntil.Some? && !(at < c.validUntil.value) then Some(CredentialExpired)
      else None
  }

  /** What the permission query is asked. */
  datatype Key = Key(personId: int, siteId: int, deviceId: int, application: string)

  datatype Cleared = Cleared(key: Key, zone: string, decision: Decision)

  function Refused(reason: Reason): Decision {
    Decision(false, reason, "", None, None, "", None)
  }

  /** Everything before the permission set: a refusal, or what the scan needs. */
  function Gates(t: Tables, req: Request): Result<Cleared, Decision> {
    match TerminalGate(t, req.deviceId)
    case Err(reason) => Err(Refused(reason))
    case Ok(terminal) =>
      var application := ApplicationOf(req.application, terminal.mode);
      if application != "" && (terminal.companyId, application) !in t.enabled then Err(Refused(ApplicationOff))
      else
        var externalId := TrimSpace(req.externalId);
        if externalId == "" || (terminal.companyId, externalId) !in t.people then
          Err(Refused(PersonUnknown).(externalId := req.externalId, application := application))
        else
          var p := t.people[(terminal.companyId, externalId)];
          var base := Decision(false, NoPermission, externalId, Some(p.id), None, application, None);
          var key := Key(p.id, terminal.siteId, req.deviceId, application);
          match PersonGate(p, req.at)
          case Some(reason) => Err(base.(reason := reason))
          case None =>
            if req.credentialId == "" then Ok(Cleared(key, terminal.zone, base))
            else if (terminal.companyId, req.credentialId) !in t.credentials then Err(base.(reason := CredentialUnknown))
            else
              var c := t.credentials[(terminal.companyId, req.credentialId)];
              if c.personId != p.id then Err(base.(reason := CredentialUnknown))
              else
                var named := base.(credentialId := Some(req.credentialId));
                match CredentialGate(c, req.at)
                case Some(reason) => Err(named.(reason := reason))
                case None => Ok(Cleared(key, terminal.zone, named))
  }

  // ---- What the gates mean ---------------------------------------------------------------

  /** Terminal, site and company all in service. */
  ghost predicate InService(t: Tables, deviceId: int, siteId: int, companyId: int) {
    && deviceId in t.devices && siteId in t.sites && companyId in t.companies
    && t.devices[deviceId].siteId == siteId && t.sites[siteId].companyId == companyId
    && !t.devices[deviceId].deleted && t.devices[deviceId].active && !t.devices[deviceId].disabled
    && t.devices[deviceId].hasKey && !t.sites[siteId].deleted && t.sites[siteId].active && t.companies[companyId]
  }

  /** The person, and the credential if one is named, are theirs and valid at the moment. */
  ghost predicate SubjectValid(t: Tables, companyId: int, externalId: string, credentialId: string, at: int, personId: int) {
    && externalId != "" && (companyId, externalId) in t.people
    && (var p := t.people[(companyId, externalId)]; p.id == personId && p.active && InValidity(p.validFrom, p.validUntil, at))
    && (credentialId != "" ==>
          (companyId, credentialId) in t.credentials
          && var c := t.credentials[(companyId, credentialId)];
             c.personId == personId && c.status == ActiveCredential && InValidity(c.validFrom, c.validUntil, at))
  }

  ghost predicate Cleared?(t: Tables, req: Request, key: Key, companyId: int) {
    && InService(t, req.deviceId, key.siteId, companyId)
    && key.deviceId == req.deviceId
    && key.application == ApplicationOf(req.application, t.devices[req.deviceId].mode)
    && (key.application != "" ==> (companyId, key.application) in t.enabled)
    && SubjectValid(t, companyId, TrimSpace(req.externalId), req.credentialId, req.at, key.personId)
  }

  /** The gates let a request through exactly when each of them would. */
  lemma GatesPassExactly(t: Tables, req: Request)
    ensures Gates(t, req).Ok? <==> exists key, companyId :: Cleared?(t, req, key, companyId)
    ensures Gates(t, req).Ok? ==>
              var c := Gates(t, req).value;
              exists companyId :: Cleared?(t, req, c.key, companyId) && c.zone == t.sites[c.key.siteId].timezone
    ensures forall key, companyId :: Cleared?(t, req, key, companyId) ==> Gates(t, req).Ok? && Gates(t, req).value.key == key
  {
    hide TrimSpace;
    if Gates(t, req).Ok? {
      var c := Gates(t, req).value;
      assert Cleared?(t, req, c.key, t.sites[c.key.siteId].companyId);
    }
  }

  /** The device, its site and its company resolve. */
  ghost predicate Loaded(t: Tables, deviceId: int, siteId: int, companyId: int) {
    && deviceId in t.devices && siteId in t.sites && companyId in t.companies
    && t.devices[deviceId].siteId == siteId && t.sites[siteId].companyId == companyId
    && !t.devices[deviceId].deleted && !t.sites[siteId].deleted
  }

  ghost predicate RefusedFor(t: Tables, req: Request, reason: Reason) {
    Gates(t, req).Err? && Gates(t, req).error.reason == reason
  }

  /** What can be wrong with a request from a terminal that resolves, outermost first. */
  datatype Fault =
    | CompanyOff | SiteOff | TerminalOff | CapabilityOff | NoPerson | PersonOff | PersonEarly | PersonLate
    | NoCredential | CredentialGone | CredentialPaused | CredentialEarly | CredentialLate

  function Depth(f: Fault): nat {
    match f
    case CompanyOff => 0 case SiteOff => 1 case TerminalOff => 2 case CapabilityOff => 3 case NoPerson => 4
    case PersonOff => 5 case PersonEarly => 6 case PersonLate => 7 case NoCredential => 8
    case CredentialGone => 9 case CredentialPaused => 10 case CredentialEarly => 11 case CredentialLate => 12
  }

  function ReasonOf(f: Fault): Reason {
    match f
    case CompanyOff => CompanyInactive case SiteOff => SiteInactive case TerminalOff => TerminalDisabled
    case CapabilityOff => ApplicationOff case NoPerson => PersonUnknown case PersonOff => PersonInactive
    case PersonEarly => PermissionNotYet case PersonLate => PermissionExpired case NoCredential => CredentialUnknown
    case CredentialGone => CredentialRevoked case CredentialPaused => CredentialSuspended
    case CredentialEarly => CredentialNotYet case CredentialLate => CredentialExpired
  }

  ghost predicate NotYet(validFrom: Option<int>, at: int) { validFrom.Some? && at < validFrom.value }

  ghost predicate NoLonger(validUntil: Option<int>, at: int) { validUntil.Some? && validUntil.value <= at }

  /** The person the request names. */
  ghost predicate Names(t: Tables, req: Request, companyId: int, p: Person) {
    TrimSpace(req.externalId) != "" && (companyId, TrimSpace(req.externalId)) in t.people
    && t.people[(companyId, TrimSpace(req.externalId))] == p
  }

  /** The credential the request names, when it is the person's. */
  ghost predicate Presents(t: Tables, req: Request, companyId: int, c: Credential) {
    req.credentialId != "" && (companyId, req.credentialId) in t.credentials && t.credentials[(companyId, req.credentialId)] == c
    && exists p :: Names(t, req, companyId, p) && c.personId == p.id
  }

  ghost predicate TerminalFault(t: Tables, req: Request, siteId: int, companyId: int, f: Fault)
    requires Loaded(t, req.deviceId, siteId, companyId)
  {
    var d := t.devices[req.deviceId];
    match f
    case CompanyOff => !t.companies[companyId]
    case SiteOff => !t.sites[siteId].active
    case TerminalOff => !d.active || d.disabled || !d.hasKey
    case CapabilityOff => ApplicationOf(req.application, d.mode) != "" && (companyId, ApplicationOf(req.application, d.mode)) !in t.enabled
    case _ => false
  }

  ghost predicate SubjectFault(t: Tables, req: Request, companyId: int, f: Fault) {
    match f
    case NoPerson => forall p :: !Names(t, req, companyId, p)
    case PersonOff => exists p :: Names(t, req, companyId, p) && !p.active
    case PersonEarly => exists p :: Names(t, req, companyId, p) && NotYet(p.validFrom, req.at)
    case PersonLate => exists p :: Names(t, req, companyId, p) && NoLonger(p.validUntil, req.at)
    case NoCredential => req.credentialId != "" && forall c :: !Presents(t, req, companyId, c)
    case CredentialGone => exists c :: Presents(t, req, companyId, c) && (c.status == RevokedCredential || c.status == OtherStatus)
    case CredentialPaused => exists c :: Presents(t, req, companyId, c) && c.status == SuspendedCredential
    case CredentialEarly => exists c :: Presents(t, req, companyId, c) && NotYet(c.validFrom, req.at)
    case CredentialLate => exists c :: Presents(t, req, companyId, c) && NoLonger(c.validUntil, req.at)
    case _ => false
  }

  /** A fault is there or not, whatever else is wrong. */
  ghost predicate Present(t: Tables, req: Request, siteId: int, companyId: int, f: Fault)
    requires Loaded(t, req.deviceId, siteId, companyId)
  {
    TerminalFault(t, req, siteId, companyId, f) || SubjectFault(t, req, companyId, f)
  }

  ghost predicate Outermost(t: Tables, req: Request, siteId: int, companyId: int, f: Fault)
    requires Loaded(t, req.deviceId, siteId, companyId)
  {
    Present(t, req, siteId, companyId, f) && forall g :: Depth(g) < Depth(f) ==> !Present(t, req, siteId, companyId, g)
  }

  /**
   * A terminal that resolves is refused exactly when something is wrong, and the reason given
   * is that of the outermost fault, whatever else is wrong; one that does not resolve is told
   * that it is disabled.
   */
  lemma RefusalNamesTheOutermost(t: Tables, req: Request)
    ensures (forall siteId, companyId :: !Loaded(t, req.deviceId, siteId, companyId)) ==> RefusedFor(t, req, TerminalDisabled)
    ensures forall siteId, companyId | Loaded(t, req.deviceId, siteId, companyId) ::
              (Gates(t, req).Err? <==> exists f :: Present(t, req, siteId, companyId, f))
    ensures forall siteId, companyId, f | Loaded(t, req.deviceId, siteId, companyId) && Outermost(t, req, siteId, companyId, f) ::
              RefusedFor(t, req, ReasonOf(f))
  {
    hide Gates;
    hide Present;
    hide ReasonOf;
    if forall siteId, companyId :: !Loaded(t, req.deviceId, siteId, companyId) {
      Unresolved(t, req);
    }
    forall siteId, companyId | Loaded(t, req.deviceId, siteId, companyId)
      ensures Gates(t, req).Err? <==> exists f :: Present(t, req, siteId, companyId, f)
    {
      GatesSearch(t, req, siteId, companyId);
      assert forall f :: Depth(f) < 13;
    }
    forall siteId, companyId, f | Loaded(t, req.deviceId, siteId, companyId) && Outermost(t, req, siteId, companyId, f)
      ensures RefusedFor(t, req, ReasonOf(f))
    {
      GatesSearch(t, req, siteId, companyId);
      if Gates(t, req).Err? {
        var g :| Outermost(t, req, siteId, companyId, g) && ReasonOf(g) == Gates(t, req).error.reason;
        OutermostIsOne(t, req, siteId, companyId, f, g);
      }
    }
  }

  lemma Unresolved(t: Tables, req: Request)
    requires forall siteId, companyId :: !Loaded(t, req.deviceId, siteId, companyId)
    ensures RefusedFor(t, req, TerminalDisabled)
  {
    if req.deviceId in t.devices && t.devices[req.deviceId].siteId in t.sites {
      var siteId := t.devices[req.deviceId].siteId;
      assert !Loaded(t, req.deviceId, siteId, t.sites[siteId].companyId);
    }
  }

  lemma PersonFaultsAre(t: Tables, req: Request, companyId: int, p: Person)
    requires Names(t, req, companyId, p)
    ensures SubjectFault(t, req, companyId, PersonOff) <==> !p.active
    ensures SubjectFault(t, req, companyId, PersonEarly) <==> NotYet(p.validFrom, req.at)
    ensures SubjectFault(t, req, companyId, PersonLate) <==> NoLonger(p.validUntil, req.at)
    ensures !SubjectFault(t, req, companyId, NoPerson)
    ensures SubjectFault(t, req, companyId, NoCredential) <==>
              req.credentialId != "" && ((companyId, req.credentialId) !in t.credentials
                                         || t.credentials[(companyId, req.credentialId)].personId != p.id)
  {
    hide TrimSpace;
    if req.credentialId != "" && (companyId, req.credentialId) in t.credentials {
      var c := t.credentials[(companyId, req.credentialId)];
      assert Presents(t, req, companyId, c) <==> c.personId == p.id;
    }
  }

  lemma CredentialFaultsAre(t: Tables, req: Request, companyId: int, c: Credential)
    requires Presents(t, req, companyId, c)
    ensures SubjectFault(t, req, companyId, CredentialGone) <==> c.status == RevokedCredential || c.status == OtherStatus
    ensures SubjectFault(t, req, companyId, CredentialPaused) <==> c.status == SuspendedCredential
    ensures SubjectFault(t, req, companyId, CredentialEarly) <==> NotYet(c.validFrom, req.at)
    ensures SubjectFault(t, req, companyId, CredentialLate) <==> NoLonger(c.validUntil, req.at)
  {
    hide TrimSpace;
  }

  /** The fault a reason names. */
  function FaultOf(reason: Reason): Fault {
    match reason
    case CompanyInactive => CompanyOff case SiteInactive => SiteOff case TerminalDisabled => TerminalOff
    case ApplicationOff => CapabilityOff case PersonUnknown => NoPerson case PersonInactive => PersonOff
    case PermissionNotYet => PersonEarly case PermissionExpired => PersonLate case CredentialUnknown => NoCredential
    case CredentialRevoked => CredentialGone case CredentialSuspended => CredentialPaused
    case CredentialNotYet => CredentialEarly case _ => CredentialLate
  }

  ghost predicate ClearTo(t: Tables, req: Request, siteId: int, companyId: int, depth: nat)
    requires Loaded(t, req.deviceId, siteId, companyId)
  {
    forall f :: Depth(f) < depth ==> !Present(t, req, siteId, companyId, f)
  }

  lemma TerminalSearch(t: Tables, req: Request, siteId: int, companyId: int)
    requires Loaded(t, req.deviceId, siteId, companyId)
    ensures var gate := TerminalGate(t, req.deviceId);
            && (gate.Err? ==> Outermost(t, req, siteId, companyId, FaultOf(gate.error)) && ReasonOf(FaultOf(gate.error)) == gate.error)
            && (gate.Ok? ==> gate.value == Terminal(companyId, siteId, t.devices[req.deviceId].mode, t.sites[siteId].timezone)
                             && ClearTo(t, req, siteId, companyId, 3))
  {
    hide ApplicationOf;
  }

  lemma CapabilitySearch(t: Tables, req: Request, siteId: int, companyId: int)
    requires Loaded(t, req.deviceId, siteId, companyId) && ClearTo(t, req, siteId, companyId, 3)
    ensures var application := ApplicationOf(req.application, t.devices[req.deviceId].mode);
            if application != "" && (companyId, application) !in t.enabled then Outermost(t, req, siteId, companyId, CapabilityOff)
            else ClearTo(t, req, siteId, companyId, 4)
  {
    hide ApplicationOf;
  }

  lemma PersonSearch(t: Tables, req: Request, siteId: int, companyId: int)
    requires Loaded(t, req.deviceId, siteId, companyId) && ClearTo(t, req, siteId, companyId, 4)
    ensures var key := (companyId, TrimSpace(req.externalId));
            if key.1 == "" || key !in t.people then Outermost(t, req, siteId, companyId, NoPerson)
            else
              var gate := PersonGate(t.people[key], req.at);
              && Names(t, req, companyId, t.people[key])
              && if gate.Some? then Outermost(t, req, siteId, companyId, FaultOf(gate.value)) && ReasonOf(FaultOf(gate.value)) == gate.value
                 else ClearTo(t, req, siteId, companyId, 8)
  {
    var key := (companyId, TrimSpace(req.externalId));
    hide TrimSpace;
    if key.1 != "" && key in t.people {
      assert Names(t, req, companyId, t.people[key]);
      PersonFaultsAre(t, req, companyId, t.people[key]);
      hide SubjectFault;
      hide Names;
    }
  }

  lemma OwnershipSearch(t: Tables, req: Request, siteId: int, companyId: int, p: Person)
    requires Loaded(t, req.deviceId, siteId, companyId) && ClearTo(t, req, siteId, companyId, 8)
    requires Names(t, req, companyId, p) && req.credentialId != ""
    ensures var key := (companyId, req.credentialId);
            if key !in t.credentials || t.credentials[key].personId != p.id then Outermost(t, req, siteId, companyId, NoCredential)
            else ClearTo(t, req, siteId, companyId, 9) && Presents(t, req, companyId, t.credentials[key])
  {
    PersonFaultsAre(t, req, companyId, p);
    hide SubjectFault;
    hide Names;
  }

  lemma CredentialSearch(t: Tables, req: Request, siteId: int, companyId: int, c: Credential)
    requires Loaded(t, req.deviceId, siteId, companyId) && ClearTo(t, req, siteId, companyId, 9)
    requires Presents(t, req, companyId, c)
    ensures var gate := CredentialGate(c, req.at);
            if gate.Some? then Outermost(t, req, siteId, companyId, FaultOf(gate.value)) && ReasonOf(FaultOf(gate.value)) == gate.value
            else ClearTo(t, req, siteId, companyId, 13)
  {
    CredentialFaultsAre(t, req, companyId, c);
    hide SubjectFault;
    hide Presents;
  }

  lemma NothingPresented(t: Tables, req: Request, siteId: int, companyId: int)
    requires Loaded(t, req.deviceId, siteId, companyId) && ClearTo(t, req, siteId, companyId, 8) && req.credentialId == ""
    ensures ClearTo(t, req, siteId, companyId, 13)
  {
    hide Names;
  }

  /** The gates are a search for the outermost fault. */
  lemma GatesSearch(t: Tables, req: Request, siteId: int, companyId: int)
    requires Loaded(t, req.deviceId, siteId, companyId)
    ensures Gates(t, req).Ok? ==> ClearTo(t, req, siteId, companyId, 13)
    ensures Gates(t, req).Err? ==>
              exists f :: Outermost(t, req, siteId, companyId, f) && ReasonOf(f) == Gates(t, req).error.reason
  {
    hide TrimSpace;
    hide ApplicationOf;
    hide TerminalGate;
    hide PersonGate;
    hide CredentialGate;
    hide Present;
    hide ClearTo;
    hide Outermost;
    hide Names;
    hide Presents;
    hide FaultOf;
    TerminalSearch(t, req, siteId, companyId);
    if TerminalGate(t, req.deviceId).Ok? {
      CapabilitySearch(t, req, siteId, companyId);
      var application := ApplicationOf(req.application, t.devices[req.deviceId].mode);
      var key := (companyId, TrimSpace(req.externalId));
      if application == "" || (companyId, application) in t.enabled {
        PersonSearch(t, req, siteId, companyId);
        if key.1 != "" && key in t.people && PersonGate(t.people[key], req.at) == None {
          if req.credentialId == "" {
            NothingPresented(t, req, siteId, companyId);
          } else {
            OwnershipSearch(t, req, siteId, companyId, t.people[key]);
            var cred := (companyId, req.credentialId);
            if cred in t.credentials && t.credentials[cred].personId == t.people[key].id {
              CredentialSearch(t, req, siteId, companyId, t.credentials[cred]);
            }
          }
        }
      }
    }
  }

  lemma OutermostIsOne(t: Tables, req: Request, siteId: int, companyId: int, f: Fault, g: Fault)
    requires Loaded(t, req.deviceId, siteId, companyId)
    requires Outermost(t, req, siteId, companyId, f) && Outermost(t, req, siteId, companyId, g)
    ensures f == g
  {
    hide Present;
    if Depth(f) == Depth(g) {} else if Depth(f) < Depth(g) {} else {}
  }

  /**
   * A terminal that is out of service learns nothing about people: its answer is the same
   * whatever the tables hold about people, credentials and permissions, and whatever it read.
   */
  lemma OutOfServiceTerminalLearnsNothing(t: Tables, u: Tables, req: Request, other: Request)
    requires t.devices == u.devices && t.sites == u.sites && t.companies == u.companies
    requires req.deviceId == other.deviceId
    requires forall siteId, companyId :: !InService(t, req.deviceId, siteId, companyId)
    ensures Gates(t, req).Err? && Gates(t, req) == Gates(u, other)
  {
    if TerminalGate(t, req.deviceId).Ok? {
      var terminal := TerminalGate(t, req.deviceId).value;
      assert InService(t, req.deviceId, terminal.siteId, terminal.companyId);
    }
  }

  /** Somebody else's credential is refused in the same words as one that does not exist. */
  lemma ForeignCredentialLooksUnknown(t: Tables, req: Request, companyId: int, person: Person)
    requires forall siteId, c :: InService(t, req.deviceId, siteId, c) ==> c == companyId
    requires (companyId, TrimSpace(req.externalId)) in t.people && t.people[(companyId, TrimSpace(req.externalId))] == person
    requires req.credentialId != "" && (companyId, req.credentialId) in t.credentials
    requires t.credentials[(companyId, req.credentialId)].personId != person.id
    ensures Gates(t, req) == Gates(t.(credentials := t.credentials - {(companyId, req.credentialId)}), req)
  {
    hide TrimSpace;
    var u := t.(credentials := t.credentials - {(companyId, req.credentialId)});
    assert TerminalGate(t, req.deviceId) == TerminalGate(u, req.deviceId);
    if TerminalGate(t, req.deviceId).Ok? {
      var terminal := TerminalGate(t, req.deviceId).value;
      assert InService(t, req.deviceId, terminal.siteId, terminal.companyId);
    }
  }

  // ---- The permission query -----------------------------------------------------------------

  predicate Covers(scope: Scope, key: Key) {
    match scope
    case CompanyWide => true
    case AtSite(siteId) => siteId == key.siteId
    case AtTerminal(deviceId) => deviceId == key.deviceId
  }

  /** `application = $4` is never true when $4 is NULL, which is what "" is sent as. */
  predicate Matches(p: Permission, key: Key) {
    && p.personId == key.personId && !p.deleted && p.active && Covers(p.scope, key)
    && (p.application == None || (key.application != "" && p.application == Some(key.application)))
  }

  /** The schedule a permission joins to: only a live, active one. */
  function ScheduleOf(t: Tables, p: Permission): Option<Schedule> {
    if p.scheduleId.Some? && p.scheduleId.value in t.schedules
       && !t.schedules[p.scheduleId.value].deleted && t.schedules[p.scheduleId.value].active
    then Some(t.schedules[p.scheduleId.value]) else None
  }

  function WindowsOf(t: Tables, p: Permission): seq<Window> {
    match ScheduleOf(t, p)
    case None => []
    case Some(s) => s.windows
  }

  function TimezoneOf(t: Tables, p: Permission): Option<string> {
    match ScheduleOf(t, p)
    case None => None
    case Some(s) => s.timezone
  }

  /** A row of the LEFT JOIN: one per window, or one without a window. */
  ghost predicate InJoin(t: Tables, key: Key, row: JoinedRow) {
    && row.publicId in t.permissions
    && var p := t.permissions[row.publicId];
       && Matches(p, key)
       && row.effect == p.effect && row.startsAt == p.startsAt && row.endsAt == p.endsAt
       && row.timezone == TimezoneOf(t, p)
       && (if WindowsOf(t, p) == [] then row.window == None else row.window.Some? && row.window.value in WindowsOf(t, p))
  }

  /** The database answers every query with the rows of the join, in whatever order it likes. */
  ghost predicate Answers(t: Tables, query: Key -> seq<JoinedRow>) {
    forall key, row :: row in query(key) <==> InJoin(t, key, row)
  }

  ghost predicate ReadableSchedules(t: Tables) {
    forall id :: id in t.schedules ==> forall w :: w in t.schedules[id].windows ==> Readable(w)
  }

  // ---- What the tables say ----------------------------------------------------------------

  ghost predicate ZoneKnown(t: Tables, p: Permission, now: Instant) {
    ZoneOf(TimezoneOf(t, p), now.siteZone) in now.clocks
  }

  ghost predicate InWindow(t: Tables, p: Permission, now: Instant) {
    && ZoneKnown(t, p, now)
    && exists w :: w in WindowsOf(t, p) && Admits(w, now.clocks[ZoneOf(TimezoneOf(t, p), now.siteZone)])
  }

  /** A permission is in force: inside its validity and, if scheduled, inside one of its windows. */
  ghost predicate PermissionInForce(t: Tables, p: Permission, now: Instant) {
    InValidity(p.startsAt, p.endsAt, now.at) && (WindowsOf(t, p) == [] || InWindow(t, p, now))
  }

  /** A scheduled permission inside its validity needs a clock to be evaluated by. */
  ghost predicate Evaluable(t: Tables, p: Permission, now: Instant) {
    InValidity(p.startsAt, p.endsAt, now.at) && WindowsOf(t, p) != [] ==> ZoneKnown(t, p, now)
  }

  ghost predicate Applies(t: Tables, id: string, key: Key) {
    id in t.permissions && Matches(t.permissions[id], key)
  }

  ghost predicate SomethingAllows(t: Tables, key: Key, now: Instant) {
    exists id :: Applies(t, id, key) && t.permissions[id].effect == Allow && PermissionInForce(t, t.permissions[id], now)
  }

  ghost predicate SomethingDenies(t: Tables, key: Key, now: Instant) {
    exists id :: Applies(t, id, key) && t.permissions[id].effect == Deny && PermissionInForce(t, t.permissions[id], now)
  }

  ghost predicate AllEvaluable(t: Tables, key: Key, now: Instant) {
    forall id :: Applies(t, id, key) ==> Evaluable(t, t.permissions[id], now)
  }

  ghost predicate PermissionsGrant(t: Tables, key: Key, now: Instant) {
    AllEvaluable(t, key, now) && SomethingAllows(t, key, now) && !SomethingDenies(t, key, now)
  }

  /** Who may open a door, as the tables say it. */
  ghost predicate Permitted(t: Tables, clocks: map<string, Local>, req: Request) {
    exists key, companyId :: Cleared?(t, req, key, companyId)
                             && PermissionsGrant(t, key, Instant(req.at, clocks, t.sites[key.siteId].timezone))
  }

  // ---- The clock a schedule is read by ------------------------------------------------------------

  /** A live, active schedule with windows limits a permission in time, and nothing else does. */
  ghost predicate LimitedBy(t: Tables, p: Permission, s: int) {
    p.scheduleId == Some(s) && s in t.schedules && !t.schedules[s].deleted && t.schedules[s].active && t.schedules[s].windows != []
  }

  ghost predicate HasOwnZone(schedule: Schedule) {
    schedule.timezone.Some? && exists c :: c in schedule.timezone.value && !IsSpace(c)
  }

  /** Its own zone when it names one, else the site's, else UTC. */
  ghost predicate ReadIn(schedule: Schedule, siteZone: string, zone: string) {
    if HasOwnZone(schedule) then schedule.timezone == Some(zone)
    else if siteZone != "" then zone == siteZone
    else zone == "UTC"
  }

  lemma ZoneIsReadIn(schedule: Schedule, siteZone: string, zone: string)
    ensures ReadIn(schedule, siteZone, zone) <==> zone == ZoneOf(schedule.timezone, siteZone)
  {
    if schedule.timezone.Some? { TrimsToNothing(schedule.timezone.value); }
    hide TrimSpace;
  }

  /** Some window of a schedule admits the moment on the clock of its zone. */
  ghost predicate OpenNow(schedule: Schedule, now: Instant) {
    exists zone, w :: ReadIn(schedule, now.siteZone, zone) && zone in now.clocks && w in schedule.windows
                      && WindowAdmits(w, now.clocks[zone].weekday, now.clocks[zone].second) == Ok(true)
  }

  lemma LimitedHasWindows(t: Tables, p: Permission)
    ensures WindowsOf(t, p) != [] <==> exists s :: LimitedBy(t, p, s)
  {
    if WindowsOf(t, p) != [] {
      assert LimitedBy(t, p, p.scheduleId.value);
    }
  }

  /** A permission is in force exactly inside its validity and, if a schedule limits it, while that is open. */
  lemma InForceExactlyWhen(t: Tables, p: Permission, now: Instant)
    ensures PermissionInForce(t, p, now) <==>
            && (p.startsAt.Some? ==> p.startsAt.value <= now.at) && (p.endsAt.Some? ==> now.at < p.endsAt.value)
            && forall s :: LimitedBy(t, p, s) ==> OpenNow(t.schedules[s], now)
  {
    hide WindowAdmits;
    hide ZoneOf;
    hide ReadIn;
    LimitedHasWindows(t, p);
    if s :| LimitedBy(t, p, s) {
      ZoneIsReadIn(t.schedules[s], now.siteZone, ZoneOf(t.schedules[s].timezone, now.siteZone));
      forall zone | ReadIn(t.schedules[s], now.siteZone, zone) ensures zone == ZoneOf(t.schedules[s].timezone, now.siteZone) {
        ZoneIsReadIn(t.schedules[s], now.siteZone, zone);
      }
    }
  }

  /** It can be evaluated exactly unless its validity has come, a schedule limits it and that schedule's clock is not known. */
  lemma EvaluableExactlyWhen(t: Tables, p: Permission, now: Instant)
    ensures Evaluable(t, p, now) <==>
            ((p.startsAt.Some? ==> p.startsAt.value <= now.at) && (p.endsAt.Some? ==> now.at < p.endsAt.value) ==>
               forall s, zone :: LimitedBy(t, p, s) && ReadIn(t.schedules[s], now.siteZone, zone) ==> zone in now.clocks)
  {
    hide ZoneOf;
    hide ReadIn;
    LimitedHasWindows(t, p);
    if s :| LimitedBy(t, p, s) {
      ZoneIsReadIn(t.schedules[s], now.siteZone, ZoneOf(t.schedules[s].timezone, now.siteZone));
      forall zone | ReadIn(t.schedules[s], now.siteZone, zone) ensures zone == ZoneOf(t.schedules[s].timezone, now.siteZone) {
        ZoneIsReadIn(t.schedules[s], now.siteZone, zone);
      }
    }
  }

  /** Every schedule that limits a permission which applies names a zone of its own. */
  ghost predicate OwnZones(t: Tables, key: Key) {
    forall id, s :: Applies(t, id, key) && LimitedBy(t, t.permissions[id], s) ==> HasOwnZone(t.schedules[s])
  }

  lemma OwnZoneIgnoresSite(t: Tables, p: Permission, now: Instant, zone: string)
    requires forall s :: LimitedBy(t, p, s) ==> HasOwnZone(t.schedules[s])
    ensures PermissionInForce(t, p, now) <==> PermissionInForce(t, p, now.(siteZone := zone))
    ensures Evaluable(t, p, now) <==> Evaluable(t, p, now.(siteZone := zone))
  {
    hide WindowAdmits;
    InForceExactlyWhen(t, p, now);
    InForceExactlyWhen(t, p, now.(siteZone := zone));
    EvaluableExactlyWhen(t, p, now);
    EvaluableExactlyWhen(t, p, now.(siteZone := zone));
    hide PermissionInForce;
    hide Evaluable;
    hide HasOwnZone;
  }

  lemma GrantIgnoresSiteZone(t: Tables, key: Key, now: Instant, zone: string)
    requires OwnZones(t, key)
    ensures PermissionsGrant(t, key, now) <==> PermissionsGrant(t, key, now.(siteZone := zone))
  {
    hide PermissionInForce;
    hide Evaluable;
    hide Matches;
    hide LimitedBy;
    hide HasOwnZone;
    forall id | Applies(t, id, key)
      ensures PermissionInForce(t, t.permissions[id], now) <==> PermissionInForce(t, t.permissions[id], now.(siteZone := zone))
      ensures Evaluable(t, t.permissions[id], now) <==> Evaluable(t, t.permissions[id], now.(siteZone := zone))
    {
      OwnZoneIgnoresSite(t, t.permissions[id], now, zone);
    }
  }

  /** Moving a site to another zone. */
  function Rezoned(t: Tables, siteId: int, zone: string): Tables
    requires siteId in t.sites
  {
    t.(sites := t.sites[siteId := t.sites[siteId].(timezone := zone)])
  }

  lemma ClearedAlike(t: Tables, req: Request, siteId: int, zone: string, key: Key, companyId: int)
    requires siteId in t.sites
    ensures Cleared?(Rezoned(t, siteId, zone), req, key, companyId) <==> Cleared?(t, req, key, companyId)
  {
    hide TrimSpace;
    hide ApplicationOf;
  }

  lemma RezonedGrants(t: Tables, siteId: int, zone: string, key: Key, now: Instant)
    requires siteId in t.sites
    ensures PermissionsGrant(Rezoned(t, siteId, zone), key, now) <==> PermissionsGrant(t, key, now)
  {
    var u := Rezoned(t, siteId, zone);
    hide Matches;
    hide InValidity;
    hide ZoneOf;
    forall p ensures PermissionInForce(u, p, now) <==> PermissionInForce(t, p, now) {
      SchedulesAlike(t, siteId, zone, p);
    }
    forall p ensures Evaluable(u, p, now) <==> Evaluable(t, p, now) {
      SchedulesAlike(t, siteId, zone, p);
    }
    hide PermissionInForce;
    hide Evaluable;
    assert forall id :: Applies(u, id, key) <==> Applies(t, id, key);
  }

  lemma SchedulesAlike(t: Tables, siteId: int, zone: string, p: Permission)
    requires siteId in t.sites
    ensures WindowsOf(Rezoned(t, siteId, zone), p) == WindowsOf(t, p)
    ensures TimezoneOf(Rezoned(t, siteId, zone), p) == TimezoneOf(t, p)
  {
  }

  /**
   * Where every schedule that applies names its own zone, who may open a door does not depend
   * on the zone of the site, and so neither does the decision.
   */
  lemma OwnZonesIgnoreTheSite(t: Tables, clocks: map<string, Local>, req: Request, siteId: int, zone: string)
    requires siteId in t.sites
    requires forall key, companyId :: Cleared?(t, req, key, companyId) ==> OwnZones(t, key)
    ensures Permitted(Rezoned(t, siteId, zone), clocks, req) <==> Permitted(t, clocks, req)
  {
    var u := Rezoned(t, siteId, zone);
    hide Cleared?;
    hide PermissionsGrant;
    hide OwnZones;
    forall key, companyId
      ensures Cleared?(u, req, key, companyId) <==> Cleared?(t, req, key, companyId)
    {
      ClearedAlike(t, req, siteId, zone, key, companyId);
    }
    forall key, companyId | Cleared?(t, req, key, companyId)
      ensures PermissionsGrant(u, key, Instant(req.at, clocks, u.sites[key.siteId].timezone))
         <==> PermissionsGrant(t, key, Instant(req.at, clocks, t.sites[key.siteId].timezone))
    {
      ClearedHasItsSite(t, req, key, companyId);
      var now := Instant(req.at, clocks, t.sites[key.siteId].timezone);
      GrantIgnoresSiteZone(t, key, now, u.sites[key.siteId].timezone);
      RezonedGrants(t, siteId, zone, key, now.(siteZone := u.sites[key.siteId].timezone));
    }
  }

  lemma ClearedHasItsSite(t: Tables, req: Request, key: Key, companyId: int)
    requires Cleared?(t, req, key, companyId)
    ensures key.siteId in t.sites
  {
    hide TrimSpace;
    hide ApplicationOf;
  }

  // ---- The join means what the tables say ------------------------------------------------------

  /** A row that stands for a permission: its first window, or none. */
  function RowOf(t: Tables, id: string): JoinedRow
    requires id in t.permissions
  {
    var p := t.permissions[id];
    JoinedRow(id, p.effect, p.startsAt, p.endsAt, TimezoneOf(t, p), if WindowsOf(t, p) == [] then None else Some(WindowsOf(t, p)[0]))
  }

  lemma RowInForce(t: Tables, key: Key, rows: seq<JoinedRow>, r: JoinedRow, now: Instant)
    requires forall row :: row in rows <==> InJoin(t, key, row)
    requires r in rows && r.publicId in t.permissions
    ensures InForce(rows, r, now) <==> PermissionInForce(t, t.permissions[r.publicId], now)
  {
    hide WindowAdmits;
    hide TrimSpace;
    var p := t.permissions[r.publicId];
    if WindowsOf(t, p) == [] {
      assert !Scheduled(rows, r.publicId);
    } else {
      assert r.window.Some? && Scheduled(rows, r.publicId);
      if InWindow(t, p, now) {
        var w :| w in WindowsOf(t, p) && Admits(w, now.clocks[ZoneOf(TimezoneOf(t, p), now.siteZone)]);
        var s := RowOf(t, r.publicId).(window := Some(w));
        assert InJoin(t, key, s);
        assert RowAdmits(s, now);
      }
      if s :| s in rows && s.publicId == r.publicId && RowAdmits(s, now) {
        assert s.window.value in WindowsOf(t, p) && Admits(s.window.value, now.clocks[ZoneOf(TimezoneOf(t, p), now.siteZone)]);
      }
    }
  }

  lemma JoinMeansTables(t: Tables, key: Key, rows: seq<JoinedRow>, now: Instant)
    requires forall row :: row in rows <==> InJoin(t, key, row)
    ensures Consistent(rows)
    ensures RowsMeanGrant(rows, now) <==> PermissionsGrant(t, key, now)
  {
    hide InForce;
    hide PermissionInForce;
    hide ZoneOf;
    hide InValidity;
    forall r | r in rows ensures r.publicId in t.permissions {
      assert InJoin(t, key, r);
    }
    forall r | r in rows
      ensures InForce(rows, r, now) <==> PermissionInForce(t, t.permissions[r.publicId], now)
    {
      RowInForce(t, key, rows, r, now);
    }
    forall id | Applies(t, id, key) ensures RowOf(t, id) in rows {
      assert InJoin(t, key, RowOf(t, id));
    }
  }

  lemma JoinIsReadable(t: Tables, key: Key, rows: seq<JoinedRow>)
    requires forall row :: row in rows <==> InJoin(t, key, row)
    requires ReadableSchedules(t)
    ensures forall r :: r in rows ==> !Malformed(r)
  {
    forall r | r in rows ensures !Malformed(r) {
      assert InJoin(t, key, r);
      if r.window.Some? {
        var p := t.permissions[r.publicId];
        var s := p.scheduleId.value;
        assert s in t.schedules && r.window.value in t.schedules[s].windows;
        assert Readable(r.window.value);
      }
    }
  }

  // ---- Authorize ------------------------------------------------------------------------------

  lemma RulesOfRows(rows: seq<JoinedRow>, rules: seq<Rule>, now: Instant)
    requires |rules| == |Ids(rows)|
    requires forall i :: 0 <= i < |rules| ==> Gathered(rows, Ids(rows)[i], rules[i])
    ensures RulesGrant(rules, now) <==> RowsGrant(rows, now)
  {
    hide RuleAdmits;
    hide RuleFor;
    hide Ids;
    var ids := Ids(rows);
    if RowsGrant(rows, now) {
      var id :| id in ids && HasId(rows, id) && Grants(RuleFor(rows, id), now);
      var i :| 0 <= i < |ids| && ids[i] == id;
      assert Grants(rules[i], now);
      forall k | 0 <= k < |rules| ensures !Stops(rules[k], now) {
        assert ids[k] in ids;
      }
    }
    if RulesGrant(rules, now) {
      var i :| 0 <= i < |rules| && Grants(rules[i], now);
      assert ids[i] in ids && HasId(rows, ids[i]);
      forall id | id in ids ensures HasId(rows, id) && !Stops(RuleFor(rows, id), now) {
        var k :| 0 <= k < |ids| && ids[k] == id;
        assert Gathered(rows, ids[k], rules[k]);
      }
    }
  }

  /** The permission that decided: it applies, it has the effect, and it is in force. */
  ghost predicate Decides(t: Tables, key: Key, now: Instant, matched: Option<string>, effect: Effect) {
    && matched.Some? && Applies(t, matched.value, key) && t.permissions[matched.value].effect == effect
    && PermissionInForce(t, t.permissions[matched.value], now)
  }

  lemma RuleDecides(t: Tables, key: Key, rows: seq<JoinedRow>, id: string, rule: Rule, now: Instant)
    requires forall row :: row in rows <==> InJoin(t, key, row)
    requires Gathered(rows, id, rule) && RuleAdmits(rule, now) == Ok(true)
    ensures rule.publicId == id && Decides(t, key, now, Some(id), rule.effect)
  {
    hide RuleAdmits;
    hide PermissionInForce;
    hide Matches;
    hide InForce;
    JoinMeansTables(t, key, rows, now);
    var r :| r in rows && r.publicId == id;
    assert InJoin(t, key, r);
    RuleIsExplained(rows, r, now);
    RowInForce(t, key, rows, r, now);
  }

  lemma NotAdmitted(t: Tables, key: Key, rows: seq<JoinedRow>, id: string, rule: Rule, now: Instant)
    requires forall row :: row in rows <==> InJoin(t, key, row)
    requires Gathered(rows, id, rule) && RuleAdmits(rule, now) == Ok(false) && id in t.permissions
    ensures !PermissionInForce(t, t.permissions[id], now)
  {
    hide RuleAdmits;
    hide PermissionInForce;
    hide Matches;
    hide InForce;
    JoinMeansTables(t, key, rows, now);
    var r :| r in rows && r.publicId == id;
    RuleIsExplained(rows, r, now);
    RowInForce(t, key, rows, r, now);
  }

  lemma AppliesIsGathered(t: Tables, key: Key, rows: seq<JoinedRow>, id: string)
    requires (forall row :: row in rows <==> InJoin(t, key, row)) && Applies(t, id, key)
    ensures id in Ids(rows)
  {
    hide Matches;
    IdsAreTheRowIds(rows);
    hide Ids;
    assert InJoin(t, key, RowOf(t, id));
  }

  /** When every rule is evaluated and none admits, nothing that applies is in force. */
  lemma NothingAdmits(t: Tables, key: Key, rows: seq<JoinedRow>, rules: seq<Rule>, now: Instant)
    requires forall row :: row in rows <==> InJoin(t, key, row)
    requires |rules| == |Ids(rows)| && forall i :: 0 <= i < |rules| ==> Gathered(rows, Ids(rows)[i], rules[i])
    requires forall i :: 0 <= i < |rules| ==> RuleAdmits(rules[i], now) == Ok(false)
    ensures !SomethingAllows(t, key, now) && !SomethingDenies(t, key, now)
  {
    hide RuleAdmits;
    hide PermissionInForce;
    hide Matches;
    hide InJoin;
    hide Gathered;
    hide Ids;
    forall id | Applies(t, id, key) ensures !PermissionInForce(t, t.permissions[id], now) {
      AppliesIsGathered(t, key, rows, id);
      var i :| 0 <= i < |Ids(rows)| && Ids(rows)[i] == id;
      NotAdmitted(t, key, rows, id, rules[i], now);
    }
  }

  lemma ScanDecides(t: Tables, key: Key, rows: seq<JoinedRow>, rules: seq<Rule>, now: Instant, reason: Reason, matched: Option<string>)
    requires forall row :: row in rows <==> InJoin(t, key, row)
    requires |rules| == |Ids(rows)| && forall i :: 0 <= i < |rules| ==> Gathered(rows, Ids(rows)[i], rules[i])
    requires reason == Allowed ==>
               exists i :: 0 <= i < |rules| && Grants(rules[i], now) && matched == Some(rules[i].publicId)
                           && forall j :: 0 <= j < i ==> !Grants(rules[j], now)
    requires reason == ExplicitDeny ==>
               exists i :: 0 <= i < |rules| && RuleAdmits(rules[i], now) == Ok(true) && rules[i].effect == Deny
                           && matched == Some(rules[i].publicId) && forall j :: 0 <= j < i ==> !Stops(rules[j], now)
    requires reason == NoPermission ==> forall i :: 0 <= i < |rules| ==> RuleAdmits(rules[i], now) == Ok(false)
    ensures reason == Allowed ==> Decides(t, key, now, matched, Allow)
    ensures reason == ExplicitDeny ==> Decides(t, key, now, matched, Deny)
    ensures reason == NoPermission ==> !SomethingAllows(t, key, now) && !SomethingDenies(t, key, now)
  {
    hide RuleAdmits;
    hide InJoin;
    hide Decides;
    hide Gathered;
    hide SomethingAllows;
    hide SomethingDenies;
    hide Ids;
    if reason == Allowed {
      var i :| 0 <= i < |rules| && Grants(rules[i], now) && matched == Some(rules[i].publicId);
      RuleDecides(t, key, rows, Ids(rows)[i], rules[i], now);
    }
    if reason == ExplicitDeny {
      var i :| 0 <= i < |rules| && RuleAdmits(rules[i], now) == Ok(true) && rules[i].effect == Deny && matched == Some(rules[i].publicId);
      RuleDecides(t, key, rows, Ids(rows)[i], rules[i], now);
    }
    if reason == NoPermission { NothingAdmits(t, key, rows, rules, now); }
  }

  /**
   * One decision. It is always a complete decision, it grants only with the reason Allowed,
   * and with readable schedules it grants exactly when the tables permit.
   */
  method Authorize(t: Tables, query: Key -> seq<JoinedRow>, clocks: map<string, Local>, req: Request) returns (d: Decision)
    requires Answers(t, query)
    ensures d.granted <==> d.reason == Allowed
    ensures Gates(t, req).Err? ==> d == Gates(t, req).error
    ensures Gates(t, req).Ok? ==>
              var c := Gates(t, req).value;
              d.granted <==> RowsGrant(query(c.key), Instant(req.at, clocks, c.zone))
    ensures ReadableSchedules(t) ==> (d.granted <==> Permitted(t, clocks, req))
    ensures Gates(t, req).Ok? ==>
              var c := Gates(t, req).value;
              && d == c.decision.(granted := d.granted, reason := d.reason, matched := d.matched)
              && (d.reason == Allowed ==> Decides(t, c.key, Instant(req.at, clocks, c.zone), d.matched, Allow))
              && (d.reason == ExplicitDeny ==> Decides(t, c.key, Instant(req.at, clocks, c.zone), d.matched, Deny))
              && (d.reason !in {Allowed, ExplicitDeny} ==> d.matched == None)
              && (d.reason == NoPermission ==> !SomethingAllows(t, c.key, Instant(req.at, clocks, c.zone))
                                               && !SomethingDenies(t, c.key, Instant(req.at, clocks, c.zone)))
              && d.reason in {Allowed, NoPermission, ExplicitDeny, OutsideSchedule}
  {
    hide *;
    ghost var gates := Gates(t, req);
    GatesPassExactly(t, req);
    match Gates(t, req)
    case Err(refusal) =>
      RefusalIsNotAGrant(t, req);
      d := refusal;
      NotPermitted(t, clocks, req);
    case Ok(cleared) =>
      var now := Instant(req.at, clocks, cleared.zone);
      var rows := query(cleared.key);
      var rules := GatherRules(rows);
      var reason, matched := ScanRules(rules, now);
      d := cleared.decision.(granted := reason == Allowed, reason := reason, matched := matched);
      RulesOfRows(rows, rules, now);
      RowsOfQuery(t, query, cleared.key);
      JoinMeansTables(t, cleared.key, rows, now);
      ScanDecides(t, cleared.key, rows, rules, now, reason, matched);
      if ReadableSchedules(t) {
        JoinIsReadable(t, cleared.key, rows);
        GrantIsWhatTheRowsMean(rows, now);
      }
      PermittedByItsKey(t, clocks, req);
  }

  lemma RowsOfQuery(t: Tables, query: Key -> seq<JoinedRow>, key: Key)
    requires Answers(t, query)
    ensures forall row :: row in query(key) <==> InJoin(t, key, row)
  {
  }

  lemma RefusalIsNotAGrant(t: Tables, req: Request)
    ensures Gates(t, req).Err? ==> !Gates(t, req).error.granted && Gates(t, req).error.reason != Allowed
  {
    hide TrimSpace;
  }

  lemma NotPermitted(t: Tables, clocks: map<string, Local>, req: Request)
    requires Gates(t, req).Err?
    ensures !Permitted(t, clocks, req)
  {
    hide Gates;
    hide Cleared?;
    GatesPassExactly(t, req);
  }

  lemma PermittedByItsKey(t: Tables, clocks: map<string, Local>, req: Request)
    requires Gates(t, req).Ok?
    ensures var c := Gates(t, req).value;
            Permitted(t, clocks, req) <==> PermissionsGrant(t, c.key, Instant(req.at, clocks, c.zone))
  {
    hide Gates;
    hide PermissionsGrant;
    hide SubjectValid;
    hide ApplicationOf;
    GatesPassExactly(t, req);
  }

  // ---- A schedule in its own zone ------------------------------------------------------------

  const DESK_RULE := Permission(7, CompanyWide, Allow, None, None, Some(3), None, true, false)
  const DESK_REQUEST := Request(5, "ann", "", "", 0)
  const DESK_KEY := Key(7, 4, 5, "")

  /** Ten in the morning in Lagos is six in the evening in Tokyo. */
  const LAGOS_AND_TOKYO := map["Africa/Lagos" := Local(2, 36000), "Asia/Tokyo" := Local(2, 64800)]

  /** A door in Lagos and a person with one ALLOW, in office hours of a schedule. */
  function Desk(timezone: Option<string>): Tables {
    Tables(map[5 := Device(4, false, true, MULTI_PURPOSE, true, false)], map[4 := Site(1, true, "Africa/Lagos", false)],
           map[1 := true], {}, map[(1, "ann") := Person(7, true, None, None)], map[],
           map["p" := DESK_RULE], map[3 := Schedule(timezone, true, false, [OFFICE])])
  }

  lemma DeskIsCleared(timezone: Option<string>)
    ensures Cleared?(Desk(timezone), DESK_REQUEST, DESK_KEY, 1)
    ensures Desk(timezone).sites[4].timezone == "Africa/Lagos"
    ensures forall key, companyId :: Cleared?(Desk(timezone), DESK_REQUEST, key, companyId) ==> key == DESK_KEY
  {
    TrimSpaceOfTrimmed("ann");
    TrimSpaceOfTrimmed("");
    hide TrimSpace;
  }

  lemma OfficeHours()
    ensures WindowAdmits(OFFICE, 2, 36000) == Ok(true) && WindowAdmits(OFFICE, 2, 64800) == Ok(false)
  {
    hide ParseWindowTime;
    MidnightIsUnreadable();
  }

  lemma DeskRule(timezone: Option<string>, now: Instant)
    requires now.clocks == LAGOS_AND_TOKYO && now.siteZone == "Africa/Lagos"
    requires timezone == None || timezone == Some("Asia/Tokyo")
    ensures Applies(Desk(timezone), "p", DESK_KEY)
    ensures PermissionInForce(Desk(timezone), DESK_RULE, now) <==> timezone == None
    ensures Evaluable(Desk(timezone), DESK_RULE, now)
  {
    var t, schedule := Desk(timezone), Schedule(timezone, true, false, [OFFICE]);
    assert LimitedBy(t, DESK_RULE, 3);
    OfficeHours();
    hide WindowAdmits;
    InForceExactlyWhen(t, DESK_RULE, now);
    EvaluableExactlyWhen(t, DESK_RULE, now);
    hide PermissionInForce;
    hide Evaluable;
    assert OFFICE in schedule.windows;
    if timezone == None {
      assert ReadIn(schedule, now.siteZone, "Africa/Lagos");
    } else {
      assert "Asia/Tokyo"[0] in schedule.timezone.value && !IsSpace("Asia/Tokyo"[0]);
      assert ReadIn(schedule, now.siteZone, "Asia/Tokyo");
    }
  }

  lemma OneRuleGrants(t: Tables, now: Instant)
    requires t.permissions == map["p" := DESK_RULE] && Applies(t, "p", DESK_KEY) && Evaluable(t, DESK_RULE, now)
    ensures PermissionsGrant(t, DESK_KEY, now) <==> PermissionInForce(t, DESK_RULE, now)
  {
    hide PermissionInForce;
    hide Evaluable;
    hide Matches;
  }

  /** The schedule's own zone wins: in Tokyo's office hours the door stays shut at ten in Lagos, in the site's it opens. */
  lemma TokyoScheduleIsShutInLagos()
    ensures !Permitted(Desk(Some("Asia/Tokyo")), LAGOS_AND_TOKYO, DESK_REQUEST)
    ensures Permitted(Desk(None), LAGOS_AND_TOKYO, DESK_REQUEST)
  {
    DeskDecides(Some("Asia/Tokyo"));
    DeskDecides(None);
    hide Permitted;
  }

  lemma DeskDecides(timezone: Option<string>)
    requires timezone == None || timezone == Some("Asia/Tokyo")
    ensures Permitted(Desk(timezone), LAGOS_AND_TOKYO, DESK_REQUEST) <==> timezone == None
  {
    var now := Instant(0, LAGOS_AND_TOKYO, "Africa/Lagos");
    DeskIsCleared(timezone);
    DeskRule(timezone, now);
    hide Cleared?;
    hide PermissionInForce;
    hide Evaluable;
    hide Applies;
    OneRuleGrants(Desk(timezone), now);
    hide PermissionsGrant;
  }

  // ---- Adding rules ------------------------------------------------------------------------

  function Adding(t: Tables, id: string, p: Permission): Tables {
    t.(permissions := t.permissions[id := p])
  }

  lemma AddingSplits(t: Tables, id: string, p: Permission, key: Key, now: Instant)
    requires id !in t.permissions
    ensures AllEvaluable(Adding(t, id, p), key, now) <==> AllEvaluable(t, key, now) && (Matches(p, key) ==> Evaluable(t, p, now))
    ensures SomethingAllows(Adding(t, id, p), key, now)
       <==> SomethingAllows(t, key, now) || (p.effect == Allow && Matches(p, key) && PermissionInForce(t, p, now))
    ensures SomethingDenies(Adding(t, id, p), key, now)
       <==> SomethingDenies(t, key, now) || (p.effect == Deny && Matches(p, key) && PermissionInForce(t, p, now))
  {
    hide Matches;
    hide ZoneOf;
    hide InValidity;
    var u := Adding(t, id, p);
    forall q ensures PermissionInForce(u, q, now) <==> PermissionInForce(t, q, now) {
      SchedulesUntouched(t, id, p, q);
    }
    forall q ensures Evaluable(u, q, now) <==> Evaluable(t, q, now) {
      SchedulesUntouched(t, id, p, q);
    }
    hide PermissionInForce;
    hide Evaluable;
    assert Applies(u, id, key) <==> Matches(p, key);
    assert forall k :: k != id ==> (Applies(u, k, key) <==> Applies(t, k, key));
    assert forall k :: k in t.permissions ==> u.permissions[k] == t.permissions[k];
  }

  lemma SchedulesUntouched(t: Tables, id: string, p: Permission, q: Permission)
    ensures WindowsOf(Adding(t, id, p), q) == WindowsOf(t, q)
    ensures TimezoneOf(Adding(t, id, p), q) == TimezoneOf(t, q)
  {
  }

  /** A new DENY leaves a grant standing exactly when it can be evaluated and is not in force; it never creates one. */
  lemma AddingDenyNeverGrants(t: Tables, id: string, p: Permission, key: Key, now: Instant)
    requires id !in t.permissions && p.effect == Deny
    ensures PermissionsGrant(Adding(t, id, p), key, now)
       <==> PermissionsGrant(t, key, now)
            && (Matches(p, key) ==> Evaluable(t, p, now) && !PermissionInForce(t, p, now))
  {
    AddingSplits(t, id, p, key, now);
  }

  /** A new ALLOW takes a grant away exactly when it applies and has no clock to be evaluated by. */
  lemma AddingAllowNeverRefuses(t: Tables, id: string, p: Permission, key: Key, now: Instant)
    requires id !in t.permissions && p.effect == Allow && PermissionsGrant(t, key, now)
    ensures PermissionsGrant(Adding(t, id, p), key, now) <==> (Matches(p, key) ==> Evaluable(t, p, now))
  {
    AddingSplits(t, id, p, key, now);
  }

  /** For windows with times in one day, "inside one of its windows" is a place on the week's circle. */
  lemma InWindowIsOnTheCircle(t: Tables, p: Permission, now: Instant)
    requires ZoneKnown(t, p, now)
    requires now.clocks[ZoneOf(TimezoneOf(t, p), now.siteZone)].second < DAY
    requires forall w :: w in WindowsOf(t, p) ==>
               Readable(w) && ParseWindowTime(w.startTime).value >= 0 && ParseWindowTime(w.endTime).value >= 0
    ensures var local := now.clocks[ZoneOf(TimezoneOf(t, p), now.siteZone)];
            InWindow(t, p, now) <==>
            exists w :: w in WindowsOf(t, p) && Readable(w)
                        && OnWeekCircle(w.daysOfWeek, ParseWindowTime(w.startTime).value,
                                        ParseWindowTime(w.endTime).value, Moment(local.weekday, local.second))
  {
    hide OnWeekCircle;
    hide TimesAdmit;
    hide ParseWindowTime;
    hide ZoneOf;
    hide TimezoneOf;
    hide WindowsOf;
    var local := now.clocks[ZoneOf(TimezoneOf(t, p), now.siteZone)];
    forall w | w in WindowsOf(t, p)
      ensures Admits(w, local) <==>
              OnWeekCircle(w.daysOfWeek, ParseWindowTime(w.startTime).value,
                           ParseWindowTime(w.endTime).value, Moment(local.weekday, local.second))
    {
      ParsedTimeRange(w.startTime);
      ParsedTimeRange(w.endTime);
      TimesAdmitIsWeekCircle(w.daysOfWeek, ParseWindowTime(w.startTime).value,
                             ParseWindowTime(w.endTime).value, local.weekday, local.second);
    }
  }
}
