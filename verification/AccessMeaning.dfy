/**
 * Who may open a door, and what the terminal is told, spelled out against the tables alone.
 */
module AccessMeaning {
  import opened Options
  import opened Text
  import opened ScheduleWindows
  import opened Authorization
  import opened AccessDecisions

  // ---- The capability -----------------------------------------------------------------

  /** The capability that is asked for, or the terminal's own when none is. */
  ghost predicate NamedBy(named: string, requested: string, mode: string) {
    if Blank(requested) then named == mode else IsTrimOf(named, requested)
  }

  /**
   * The capability a decision is made under: the one that is asked for, or the terminal's own
   * when none is. A terminal that serves many purposes, and a request that says so, have none.
   */
  ghost predicate AsksFor(requested: string, mode: string, application: string) {
    exists named :: NamedBy(named, requested, mode) && application == if named == "MULTI_PURPOSE" then "" else named
  }

  lemma ApplicationMeans(requested: string, mode: string, application: string)
    ensures AsksFor(requested, mode, application) <==> application == ApplicationOf(requested, mode)
  {
    TrimSpaceMeans(requested);
    TrimsToNothing(requested);
    hide TrimSpace;
    hide IsTrimOf;
    var named := if Blank(requested) then mode else TrimSpace(requested);
    assert NamedBy(named, requested, mode);
  }

  // ---- The permissions that apply --------------------------------------------------------

  /**
   * A permission applies to its own person, at its own terminal, at any terminal of its site or
   * anywhere in the company, under its own capability or under any.
   */
  ghost predicate Concerns(p: Permission, personId: int, siteId: int, deviceId: int, application: string) {
    && p.personId == personId && p.active && !p.deleted
    && (p.scope == CompanyWide || p.scope == AtSite(siteId) || p.scope == AtTerminal(deviceId))
    && (p.application == None || (application != "" && p.application == Some(application)))
  }

  lemma MatchesMeans(p: Permission, key: Key)
    ensures Matches(p, key) <==> Concerns(p, key.personId, key.siteId, key.deviceId, key.application)
  {
  }

  /** Inside its validity and, if a schedule limits it, while that is open. */
  ghost predicate NowInForce(t: Tables, p: Permission, now: Instant) {
    && (p.startsAt.Some? ==> p.startsAt.value <= now.at) && (p.endsAt.Some? ==> now.at < p.endsAt.value)
    && forall s :: LimitedBy(t, p, s) ==> OpenNow(t.schedules[s], now)
  }

  /** Inside its validity, and limited by a schedule whose zone shows no clock. */
  ghost predicate NoClockFor(t: Tables, p: Permission, now: Instant) {
    && (p.startsAt.Some? ==> p.startsAt.value <= now.at) && (p.endsAt.Some? ==> now.at < p.endsAt.value)
    && exists s, zone :: LimitedBy(t, p, s) && ReadIn(t.schedules[s], now.siteZone, zone) && zone !in now.clocks
  }

  // ---- Who may open a door ------------------------------------------------------------------

  ghost predicate Subject(t: Tables, req: Request, companyId: int, externalId: string, personId: int) {
    && IsTrimOf(externalId, req.externalId) && externalId != "" && (companyId, externalId) in t.people
    && var p := t.people[(companyId, externalId)];
       p.id == personId && p.active
       && (p.validFrom.Some? ==> p.validFrom.value <= req.at) && (p.validUntil.Some? ==> req.at < p.validUntil.value)
  }

  /** The credential that is named, if one is, is the person's own and good. */
  ghost predicate Bearing(t: Tables, req: Request, companyId: int, personId: int) {
    req.credentialId != "" ==>
      && (companyId, req.credentialId) in t.credentials
      && var c := t.credentials[(companyId, req.credentialId)];
         c.personId == personId && c.status == ActiveCredential
         && (c.validFrom.Some? ==> c.validFrom.value <= req.at) && (c.validUntil.Some? ==> req.at < c.validUntil.value)
  }

  ghost predicate Admitted(t: Tables, req: Request, siteId: int, companyId: int, externalId: string, personId: int, application: string) {
    && InService(t, req.deviceId, siteId, companyId)
    && AsksFor(req.application, t.devices[req.deviceId].mode, application)
    && (application != "" ==> (companyId, application) in t.enabled)
    && Subject(t, req, companyId, externalId, personId) && Bearing(t, req, companyId, personId)
  }

  /** Some ALLOW that concerns the person here and now is in force, no DENY is, and no such permission lacks its clock. */
  ghost predicate Granted(t: Tables, now: Instant, personId: int, siteId: int, deviceId: int, application: string) {
    && (exists id :: id in t.permissions && Concerns(t.permissions[id], personId, siteId, deviceId, application)
                     && t.permissions[id].effect == Allow && NowInForce(t, t.permissions[id], now))
    && (forall id :: id in t.permissions && Concerns(t.permissions[id], personId, siteId, deviceId, application) ==>
          !(t.permissions[id].effect == Deny && NowInForce(t, t.permissions[id], now)) && !NoClockFor(t, t.permissions[id], now))
  }

  lemma GrantedExactlyWhen(t: Tables, key: Key, now: Instant)
    ensures PermissionsGrant(t, key, now) <==> Granted(t, now, key.personId, key.siteId, key.deviceId, key.application)
  {
    hide PermissionInForce;
    hide Evaluable;
    hide NowInForce;
    hide NoClockFor;
    hide Matches;
    hide Concerns;
    forall p: Permission
      ensures Matches(p, key) <==> Concerns(p, key.personId, key.siteId, key.deviceId, key.application)
      ensures PermissionInForce(t, p, now) <==> NowInForce(t, p, now)
      ensures Evaluable(t, p, now) <==> !NoClockFor(t, p, now)
    {
      MatchesMeans(p, key);
      ForceMeans(t, p, now);
    }
  }

  lemma ForceMeans(t: Tables, p: Permission, now: Instant)
    ensures PermissionInForce(t, p, now) <==> NowInForce(t, p, now)
    ensures Evaluable(t, p, now) <==> !NoClockFor(t, p, now)
  {
    InForceExactlyWhen(t, p, now);
    EvaluableExactlyWhen(t, p, now);
    hide PermissionInForce;
    hide Evaluable;
    hide OpenNow;
    hide ReadIn;
    hide LimitedBy;
  }

  lemma AdmittedExactlyWhen(t: Tables, req: Request, key: Key, companyId: int)
    ensures Cleared?(t, req, key, companyId) <==>
            key.deviceId == req.deviceId
            && exists externalId :: Admitted(t, req, key.siteId, companyId, externalId, key.personId, key.application)
  {
    TrimSpaceMeans(req.externalId);
    hide TrimSpace;
    hide IsTrimOf;
    if InService(t, req.deviceId, key.siteId, companyId) {
      ApplicationMeans(req.application, t.devices[req.deviceId].mode, key.application);
    }
    hide ApplicationOf;
    hide AsksFor;
    hide InService;
    forall externalId | Admitted(t, req, key.siteId, companyId, externalId, key.personId, key.application)
      ensures externalId == TrimSpace(req.externalId) {}
    assert Cleared?(t, req, key, companyId) ==>
             Admitted(t, req, key.siteId, companyId, TrimSpace(req.externalId), key.personId, key.application);
  }

  /**
   * Who may open a door. The terminal, its site and its company are in service; the capability,
   * if there is one, is switched on; the person is the company's, active and in their validity,
   * and so is their credential if one is named; and the permissions that concern them there
   * grant it, each schedule read on its own clock.
   */
  lemma PermittedExactlyWhen(t: Tables, clocks: map<string, Local>, req: Request)
    ensures Permitted(t, clocks, req) <==>
            exists siteId, companyId, externalId, personId, application ::
              Admitted(t, req, siteId, companyId, externalId, personId, application)
              && Granted(t, Instant(req.at, clocks, t.sites[siteId].timezone), personId, siteId, req.deviceId, application)
  {
    hide Cleared?;
    hide PermissionsGrant;
    hide Granted;
    if Permitted(t, clocks, req) {
      forall key, companyId | Cleared?(t, req, key, companyId) ensures key.siteId in t.sites {
        AdmittedExactlyWhen(t, req, key, companyId);
      }
      var key, companyId :| Cleared?(t, req, key, companyId)
                            && PermissionsGrant(t, key, Instant(req.at, clocks, t.sites[key.siteId].timezone));
      AdmittedExactlyWhen(t, req, key, companyId);
      GrantedExactlyWhen(t, key, Instant(req.at, clocks, t.sites[key.siteId].timezone));
    }
    if siteId, companyId, externalId, personId, application :|
         Admitted(t, req, siteId, companyId, externalId, personId, application)
         && Granted(t, Instant(req.at, clocks, t.sites[siteId].timezone), personId, siteId, req.deviceId, application)
    {
      var key := Key(personId, siteId, req.deviceId, application);
      AdmittedExactlyWhen(t, req, key, companyId);
      GrantedExactlyWhen(t, key, Instant(req.at, clocks, t.sites[siteId].timezone));
    }
  }

  // ---- What the answer carries -----------------------------------------------------------------

  /** The person of some company that the request names, and the capability it is decided under. */
  ghost predicate Identified(t: Tables, req: Request, d: Decision) {
    && IsTrimOf(d.externalId, req.externalId)
    && req.deviceId in t.devices && AsksFor(req.application, t.devices[req.deviceId].mode, d.application)
    && exists companyId :: (companyId, d.externalId) in t.people && d.personId == Some(t.people[(companyId, d.externalId)].id)
  }

  /** The reasons that say nothing about people. */
  predicate AboutTheTerminal(reason: Reason) {
    reason in {TerminalDisabled, CompanyInactive, SiteInactive, ApplicationOff}
  }

  /**
   * What an answer carries. A refusal about the terminal or its capability names nobody; one for
   * an unknown person repeats what was read; every other names the person, and the credential
   * once it is known to be theirs. None names a permission before one has been looked for.
   */
  lemma AnswerCarries(t: Tables, req: Request)
    ensures Gates(t, req).Err? ==>
              var d := Gates(t, req).error;
              && !d.granted && d.matched == None
              && (AboutTheTerminal(d.reason) ==> d == Decision(false, d.reason, "", None, None, "", None))
              && (d.reason == PersonUnknown ==>
                    d.externalId == req.externalId && d.personId == None && d.credentialId == None
                    && req.deviceId in t.devices && AsksFor(req.application, t.devices[req.deviceId].mode, d.application))
              && (!AboutTheTerminal(d.reason) && d.reason != PersonUnknown ==>
                    Identified(t, req, d)
                    && d.credentialId == if d.reason in {CredentialRevoked, CredentialSuspended, CredentialNotYet, CredentialExpired}
                                         then Some(req.credentialId) else None)
    ensures Gates(t, req).Ok? ==>
              var (d, key) := (Gates(t, req).value.decision, Gates(t, req).value.key);
              && Identified(t, req, d) && d.personId == Some(key.personId) && d.application == key.application
              && d.credentialId == (if req.credentialId == "" then None else Some(req.credentialId))
  {
    TrimSpaceMeans(req.externalId);
    hide TrimSpace;
    hide IsTrimOf;
    hide AsksFor;
    hide ApplicationOf;
    if req.deviceId in t.devices {
      var mode := t.devices[req.deviceId].mode;
      ApplicationMeans(req.application, mode, ApplicationOf(req.application, mode));
    }
  }
}
