/**
 * The provisioning store as the code runs it (database/devices.go, database/announcements.go,
 * database/claim.go): rows are written first and checked afterwards, and a transaction that
 * fails is undone. Every method is proved equal to its step on the tables.
 */
module ProvisioningStore {
  import opened Options
  import opened Text
  import opened Provisioning
  import opened ProvisioningInvariant

  datatype RegisterError = Collision | AtAnotherSite | Disabled

  class Store {
    var now: nat
    var sites: map<nat, Site>
    var devices: map<nat, Device>
    var nextDevice: nat
    var announcements: map<nat, Announcement>
    var nextAnnouncement: nat
    var claims: map<nat, Claim>
    var nextClaim: nat
    var lateRejects: set<nat>
    var admitted: set<nat>

    constructor (start: nat)
      ensures State() == Db(start, map[], map[], 0, map[], 0, map[], 0, {}, {}) && Inv(State())
    {
      now, sites, devices, nextDevice := start, map[], map[], 0;
      announcements, nextAnnouncement, claims, nextClaim, lateRejects, admitted := map[], 0, map[], 0, {}, {};
    }

    function State(): Db
      reads this
    {
      Db(now, sites, devices, nextDevice, announcements, nextAnnouncement, claims, nextClaim, lateRejects, admitted)
    }

    /** tx.Rollback. */
    method Rollback(before: Db)
      modifies this
      ensures State() == before
    {
      now, sites, devices, nextDevice := before.now, before.sites, before.devices, before.nextDevice;
      announcements, nextAnnouncement := before.announcements, before.nextAnnouncement;
      claims, nextClaim, lateRejects, admitted := before.claims, before.nextClaim, before.lateRejects, before.admitted;
    }

    // ---- Registration ------------------------------------------------------------------

    /**
     * registerDeviceTx. The row already carries the new key when the checks refuse it, so on
     * an error the caller's transaction must not be committed.
     */
    method RegisterDeviceTx(site: nat, serial: string, key: Secret, source: Source, ghost grant: Grant)
      returns (r: Result<nat, RegisterError>)
      requires Inv(State())
      modifies `devices, `nextDevice
      ensures var spec := Register(old(State()), site, serial, key, source, grant);
              && (r.Ok? <==> spec.1.Key?)
              && (r.Ok? ==> State() == spec.0 && spec.1 == Key(r.value, key, grant))
              && (r == Err(AtAnotherSite) <==> spec.1 == SiteMismatch)
              && (r == Err(Disabled) <==> spec.1 == DeviceDisabled)
              && (r == Err(Collision) <==> spec.1 == SecretCollision)
    {
      hide Inv;
      var live := LookupLive(serial);
      var id := if live.Some? then live.value else nextDevice;
      if KeyTaken(devices, key, id) {
        return Err(Collision);
      }
      if live.None? {
        devices := devices[id := FreshDevice(site, serial, key, source)];
        nextDevice := nextDevice + 1;
      } else {
        devices := devices[id := Rotated(devices[id], key, source)];
      }
      var device := devices[id];
      if device.site != site {
        return Err(AtAnotherSite);
      }
      if device.status == DISABLED || !device.active {
        return Err(Disabled);
      }
      return Ok(id);
    }

    method LookupLive(serial: string) returns (r: Option<nat>)
      requires Inv(State())
      ensures r == FindLive(devices, serial)
    {
      ghost var found := FindLive(devices, serial);
      if exists i :: i in devices && IsLive(devices, i, serial) {
        var i :| i in devices && IsLive(devices, i, serial);
        assert IsLive(devices, found.value, serial);
        return Some(i);
      }
      return None;
    }

    /** The lookup of a site key, in front of every request that carries one. */
    method ShowSiteKey(site: nat) returns (r: Response)
      modifies `admitted
      ensures (State(), r) == Provisioning.ShowSiteKey(old(State()), site)
    {
      if !(site in sites && sites[site].active && !sites[site].deleted) {
        return Refused;
      }
      admitted := admitted + {site};
      return Done;
    }

    method RegisterDevice(site: nat, serial: string, key: Secret) returns (r: Response)
      requires Inv(State())
      modifies this
      ensures (State(), r) == Provisioning.RegisterDevice(old(State()), site, serial, key)
    {
      hide Inv;
      hide Register;
      if site !in sites || site !in admitted {
        return Refused;
      }
      var before := State();
      RegisterAnswers(before, site, serial, key, ViaSiteKey, BySiteKey);
      var registered := RegisterDeviceTx(site, serial, key, ViaSiteKey, BySiteKey);
      if registered.Err? {
        Rollback(before);
        return Answered(registered.error);
      }
      return Key(registered.value, key, BySiteKey);
    }

    method RecordHeartbeat(device: nat, reported: Status)
      modifies `devices
      ensures State() == Provisioning.RecordHeartbeat(old(State()), device, reported)
      ensures device !in devices || devices[device].deleted ==> devices == old(devices)
      ensures device in devices && !devices[device].deleted ==>
                && devices == old(devices)[device := old(devices[device]).(status := devices[device].status)]
                && (old(devices[device].status) == DISABLED ==> devices[device].status == DISABLED)
                && (old(devices[device].status) != DISABLED ==>
                      OwnReport(devices[device].status) && (OwnReport(reported) ==> devices[device].status == reported))
    {
      var status := reported;
      if status != ONLINE && status != UPDATING && status != FAULT {
        status := ONLINE;
      }
      if device in devices && !devices[device].deleted {
        var row := devices[device];
        devices := devices[device := row.(status := if row.status == DISABLED then DISABLED else status)];
      }
    }

    method MarkDevicesOffline(stale: set<nat>)
      modifies `devices
      ensures State() == Provisioning.MarkDevicesOffline(old(State()), stale)
      ensures devices.Keys == old(devices.Keys)
      ensures forall i | i in devices ::
                && devices[i] == old(devices[i]).(status := devices[i].status)
                && (devices[i].status != old(devices[i].status) ==> devices[i].status == OFFLINE && i in stale)
                && (i in stale && !devices[i].deleted ==> devices[i].status != ONLINE)
    {
      devices := map i | i in devices ::
        if i in stale && !devices[i].deleted && devices[i].status == ONLINE then devices[i].(status := OFFLINE) else devices[i];
    }

    // ---- Announcing --------------------------------------------------------------------

    method ExpireAnnouncements(serial: Option<string>)
      modifies `announcements
      ensures State() == old(State()).(announcements := ExpireOverdue(old(announcements), now, serial))
    {
      announcements := ExpireOverdue(announcements, now, serial);
    }

    method LookupSlot(serial: string) returns (r: Option<nat>)
      requires UniqueSlots(announcements)
      ensures r == FindSlot(announcements, serial)
    {
      ghost var found := FindSlot(announcements, serial);
      if exists i :: i in announcements && IsSlot(announcements, i, serial) {
        var i :| i in announcements && IsSlot(announcements, i, serial);
        assert IsSlot(announcements, found.value, serial);
        return Some(i);
      }
      return None;
    }

    method Announce(text: string, presented: Option<Secret>, code: Secret, token: Secret) returns (r: Response)
      requires Inv(State())
      modifies this
      ensures (State(), r) == Provisioning.Announce(old(State()), text, presented, code, token)
    {
      hide NormalizeSerial;
      hide Keeps;
      hide TokenTaken;
      hide CodeTaken;
      hide Overdue;
      var normal := NormalizeSerial(text);
      if normal.None? {
        return SerialInvalid;
      }
      var serial := normal.value;
      var before := State();
      ExpiryKeepsSlots(before, serial);
      hide Inv;
      ExpireAnnouncements(Some(serial));
      var live := LookupSlot(serial);
      if live.Some? {
        var id := live.value;
        var row := announcements[id];
        if presented == Some(row.token) || row.state != Pending {
          return Announced(id, true, row.state);
        }
        announcements := announcements[id := row.(state := Superseded)];
      }
      if TokenTaken(announcements, token) || CodeTaken(announcements, code) {
        Rollback(before);
        return SecretCollision;
      }
      announcements := announcements[nextAnnouncement :=
        Announcement(serial, code, token, Pending, None, None, None, now + ANNOUNCEMENT_TTL, 0)];
      nextAnnouncement := nextAnnouncement + 1;
      return Announced(nextAnnouncement - 1, false, Pending);
    }

    // ---- Collecting --------------------------------------------------------------------

    method LookupToken(token: Secret) returns (r: Option<nat>)
      requires Inv(State())
      ensures r == FindToken(announcements, token)
    {
      ghost var found := FindToken(announcements, token);
      if exists i :: i in announcements && HasToken(announcements, i, token) {
        var i :| i in announcements && HasToken(announcements, i, token);
        assert HasToken(announcements, found.value, token);
        return Some(i);
      }
      return None;
    }

    /** AnnouncementStatus: the poll, and the one-shot collection. */
    method PollAnnouncement(token: Secret, key: Secret) returns (r: Response)
      requires Inv(State())
      modifies this
      ensures (State(), r) == AnnouncementStatus(old(State()), token, key)
    {
      hide Inv;
      hide Provisioning.Collect;
      var found := LookupToken(token);
      if found.None? {
        return Refused;
      }
      var row := announcements[found.value];
      if row.state == Pending && now < row.expiresAt {
        return Waiting(Pending);
      }
      if row.state == Adopted && now < row.expiresAt {
        return Waiting(Adopted);
      }
      if !(row.state == Approved && now < row.approvalExpiresAt && row.site.Some?) {
        return Refused;
      }
      r := Collect(found.value, key);
    }

    method Collect(id: nat, key: Secret) returns (r: Response)
      requires Inv(State()) && id in announcements && announcements[id].site.Some?
      modifies this
      ensures (State(), r) == Provisioning.Collect(old(State()), id, key)
    {
      hide Inv;
      hide Register;
      var row := announcements[id];
      var site := row.site.value;
      if !(site in sites && !sites[site].deleted) || !sites[site].active {
        announcements := announcements[id := row.(state := Rejected)];
        return Refused;
      }
      if row.company != Some(sites[site].company) {
        announcements := announcements[id := row.(state := Rejected)];
        return Refused;
      }
      var before := State();
      RegisterAnswers(before, site, row.serial, key, ViaAnnouncement, ByAnnouncement(id));
      var registered := RegisterDeviceTx(site, row.serial, key, ViaAnnouncement, ByAnnouncement(id));
      if registered.Err? {
        Rollback(before);
        if registered.error == Collision {
          return SecretCollision;
        }
        lateRejects := lateRejects + {id};
        return RolledBack(id);
      }
      announcements := announcements[id := row.(state := Collected, device := Some(registered.value))];
      return Key(registered.value, key, ByAnnouncement(id));
    }

    // ---- Adopting, approving, rejecting ----------------------------------------------------

    method AdoptAnnouncement(company: nat, code: Secret) returns (r: Response)
      requires Inv(State())
      modifies `announcements
      ensures (State(), r) == Provisioning.AdoptAnnouncement(old(State()), company, code)
    {
      hide Verdict;
      if !exists i :: i in announcements && Adoptable(announcements, i, code, now) {
        assert forall i: nat :: !Adoptable(announcements, i, code, now);
        return Refused;
      }
      var id :| id in announcements && Adoptable(announcements, id, code, now);
      AdoptsTheRow(State(), company, code, id);
      hide Inv;
      var verdict := OwnershipVerdict(announcements[id].serial, company);
      if verdict.Some? {
        return verdict.value;
      }
      announcements := announcements[id :=
        announcements[id].(state := Adopted, company := Some(company), expiresAt := now + ANNOUNCEMENT_TTL)];
      return Done;
    }

    /** verdictFor over lookupTerminalOwnership. */
    method OwnershipVerdict(serial: string, company: nat) returns (r: Option<Response>)
      requires Inv(State())
      ensures r == Verdict(State(), serial, company)
    {
      var live := LookupLive(serial);
      hide Inv;
      if live.None? {
        return None;
      }
      var row := devices[live.value];
      if row.site !in sites || sites[row.site].deleted {
        return None;
      }
      if sites[row.site].company != company {
        return Some(OwnedElsewhere);
      }
      if row.releaseOrdered {
        return Some(ReleaseInProgress);
      }
      if row.status == DISABLED || !row.active {
        return Some(DisabledLocally);
      }
      return None;
    }

    method ApproveAnnouncement(company: nat, id: nat, site: nat) returns (r: Response)
      requires Inv(State())
      modifies `announcements
      ensures (State(), r) == Provisioning.ApproveAnnouncement(old(State()), company, id, site)
    {
      hide Verdict;
      hide Inv;
      if id !in announcements {
        return Refused;
      }
      var row := announcements[id];
      if row.company != Some(company) || row.state != Adopted || row.expiresAt <= now {
        return Refused;
      }
      if !SiteUsable(sites, site) || sites[site].company != company {
        return Refused;
      }
      var verdict := OwnershipVerdict(row.serial, company);
      if verdict.Some? {
        return verdict.value;
      }
      announcements := announcements[id :=
        row.(state := Approved, site := Some(site), approvalExpiresAt := now + APPROVAL_TTL)];
      return Done;
    }

    method RejectAnnouncement(company: nat, id: nat) returns (r: Response)
      modifies `announcements
      ensures (State(), r) == Provisioning.RejectAnnouncement(old(State()), company, id)
      ensures r == Refused || (r == Done && id in announcements && announcements[id].state == Rejected)
      ensures r == Done <==> id in announcements && old(announcements[id].company) == Some(company)
                             && old(announcements[id].state) in {Adopted, Approved}
      ensures announcements == if r == Done then old(announcements)[id := old(announcements[id]).(state := Rejected)] else old(announcements)
    {
      if id !in announcements {
        return Refused;
      }
      var row := announcements[id];
      if row.company != Some(company) || (row.state != Adopted && row.state != Approved) {
        return Refused;
      }
      announcements := announcements[id := row.(state := Rejected)];
      return Done;
    }

    /** The second transaction of rollbackThenReject. */
    method RejectAfterRollback(id: nat)
      modifies `announcements, `lateRejects
      ensures State() == LateReject(old(State()), id)
      ensures lateRejects == old(lateRejects) - {id} && announcements.Keys == old(announcements.Keys)
      ensures forall i | i in announcements ::
                announcements[i] == old(announcements[i]) || (i == id && announcements[i] == old(announcements[i]).(state := Rejected))
    {
      if id !in lateRejects {
        return;
      }
      lateRejects := lateRejects - {id};
      if id !in announcements {
        return;
      }
      var row := announcements[id];
      if row.device.None? && row.company.Some? {
        announcements := announcements[id := row.(state := Rejected)];
      }
    }

    method PurgeAnnouncements(aged: set<nat>)
      modifies `announcements
      ensures announcements == Provisioning.PurgeAnnouncements(old(announcements), aged)
      ensures forall i :: i in announcements <==>
                i in old(announcements) && !(i in aged && old(announcements)[i].state in {Collected, Rejected, Expired, Superseded})
      ensures forall i | i in announcements :: announcements[i] == old(announcements)[i]
    {
      announcements := map i | i in announcements && (i !in aged || HoldsSlot(announcements[i].state)) :: announcements[i];
    }

    method PurgeExpiredClaimCodes(days: int)
      modifies `claims
      ensures claims == PurgeClaims(old(claims), now, days)
      ensures forall i :: i in claims <==> i in old(claims) && (days < 0 || old(claims)[i].expiresAt + days * 86400 >= now)
      ensures forall i | i in claims :: claims[i] == old(claims)[i]
    {
      if days >= 0 {
        claims := map i | i in claims && claims[i].expiresAt + days * SECONDS_A_DAY >= now :: claims[i];
      }
    }

    // ---- Claim codes ---------------------------------------------------------------------------

    method IssueClaimCode(company: nat, site: nat, text: string, ttl: int, code: Secret) returns (r: Response)
      modifies `claims, `nextClaim
      ensures (State(), r) == Provisioning.IssueClaimCode(old(State()), company, site, text, ttl, code)
    {
      hide TrimSpace;
      var serial := TrimSpace(text);
      if serial == "" || ByteLength(serial) > MAX_SERIAL_LENGTH {
        return SerialInvalid;
      }
      var lifetime := ttl;
      if lifetime <= 0 {
        lifetime := DEFAULT_CLAIM_TTL;
      }
      if lifetime > MAX_CLAIM_TTL {
        lifetime := MAX_CLAIM_TTL;
      }
      if !SiteUsable(sites, site) || sites[site].company != company {
        return Refused;
      }
      var saved := claims;
      claims := SupersedeClaims(claims, site, serial);
      SupersedingKeepsCodes(saved, site, serial, code);
      if ClaimCodeTaken(claims, code) {
        claims := saved;
        return SecretCollision;
      }
      claims := claims[nextClaim := Claim(site, company, code, serial, now + lifetime, None, false)];
      nextClaim := nextClaim + 1;
      return Done;
    }

    method RedeemClaimCode(code: Secret, text: string, key: Secret) returns (r: Response)
      requires Inv(State())
      modifies this
      ensures (State(), r) == Provisioning.RedeemClaimCode(old(State()), code, text, key)
    {
      hide TrimSpace;
      hide ToLower;
      hide Register;
      var serial := TrimSpace(text);
      if serial == "" {
        return SerialInvalid;
      }
      if !exists i :: i in claims && Redeemable(claims, i, code, now) {
        assert forall i: nat :: !Redeemable(claims, i, code, now);
        return Refused;
      }
      var id :| id in claims && Redeemable(claims, id, code, now);
      RedeemsTheRow(State(), code, text, key, id);
      hide Inv;
      var claim := claims[id];
      if !EqualFold(claim.serial, serial) || !SiteUsable(sites, claim.site) {
        return Refused;
      }
      var before := State();
      RegisterAnswers(before, claim.site, claim.serial, key, ViaClaimCode, ByClaim(id));
      var registered := RegisterDeviceTx(claim.site, claim.serial, key, ViaClaimCode, ByClaim(id));
      if registered.Err? {
        Rollback(before);
        return Answered(registered.error);
      }
      claims := claims[id := claim.(redeemed := Some(registered.value))];
      return Key(registered.value, key, ByClaim(id));
    }
  }

  /** The states a terminal may report for itself. */
  predicate OwnReport(s: Status) { s == ONLINE || s == UPDATING || s == FAULT }

  function Answered(error: RegisterError): Response {
    match error
    case Collision => SecretCollision
    case AtAnotherSite => SiteMismatch
    case Disabled => DeviceDisabled
  }

  /** Register answers with a key or with one of three refusals, and a refusal changes nothing. */
  lemma RegisterAnswers(db: Db, site: nat, serial: string, key: Secret, source: Source, grant: Grant)
    requires Inv(db)
    ensures var (after, r) := Register(db, site, serial, key, source, grant);
            && (r.Key? || r == SecretCollision || r == SiteMismatch || r == DeviceDisabled)
            && (!r.Key? ==> after == db)
            && after == db.(devices := after.devices, nextDevice := after.nextDevice)
  {
    hide Inv;
  }

  lemma ExpiryKeepsSlots(db: Db, serial: string)
    requires Inv(db)
    ensures UniqueSlots(ExpireOverdue(db.announcements, db.now, Some(serial)))
  {
    ExpiryKeeps(db, Some(serial));
  }

  lemma RedeemsTheRow(db: Db, code: Secret, text: string, key: Secret, i: nat)
    requires Inv(db) && Redeemable(db.claims, i, code, db.now) && TrimSpace(text) != ""
    ensures Provisioning.RedeemClaimCode(db, code, text, key)
         == var c := db.claims[i];
            if !EqualFold(c.serial, TrimSpace(text)) || !SiteUsable(db.sites, c.site) then (db, Refused)
            else
              var (after, r) := Register(db, c.site, c.serial, key, ViaClaimCode, ByClaim(i));
              match r
              case Key(d, _, _) => (after.(claims := db.claims[i := c.(redeemed := Some(d))]), r)
              case _ => (db, r)
  {
    hide Register;
    hide TrimSpace;
    hide ToLower;
    forall j: nat | Redeemable(db.claims, j, code, db.now) ensures j == i {
      assert HasCode(db.claims, i, code) && HasCode(db.claims, j, code);
    }
  }

  lemma SupersedingKeepsCodes(claims: map<nat, Claim>, site: nat, serial: string, code: Secret)
    ensures ClaimCodeTaken(SupersedeClaims(claims, site, serial), code) <==> ClaimCodeTaken(claims, code)
  {
    if ClaimCodeTaken(claims, code) {
      var i :| i in claims && claims[i].code == code;
      assert i in SupersedeClaims(claims, site, serial) && SupersedeClaims(claims, site, serial)[i].code == code;
    }
  }
}
