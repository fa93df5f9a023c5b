/**
 * Terminal provisioning: the tables and what each store function does to them
 * (database/announcements.go, database/claim.go, database/devices.go).
 *
 * Every exported function is one transaction and is stated here as one step on the
 * tables, checks first. ProvisioningStore shows that the code's own order -- write the
 * device row, check afterwards, roll back -- is this step. Hashes are injective, so a
 * secret stands for its own hash; a unique index that a new secret would break fails the
 * transaction.
 */
module Provisioning {
  import opened Options
  import opened Text

  type Secret = nat

  const ANNOUNCEMENT_TTL := 15 * 60
  const APPROVAL_TTL := 24 * 60 * 60
  const DEFAULT_CLAIM_TTL := 2 * 60 * 60
  const MAX_CLAIM_TTL := 24 * 60 * 60
  const MAX_SERIAL_LENGTH := 15

  // ---- Tables --------------------------------------------------------------------

  datatype Site = Site(company: nat, active: bool, deleted: bool)

  datatype Status = PROVISIONING | ONLINE | OFFLINE | UPDATING | FAULT | DISABLED

  datatype Source = ViaSiteKey | ViaClaimCode | ViaAnnouncement

  datatype Device = Device(
    site: nat, serial: string, status: Status, active: bool,
    key: Option<Secret>, revoked: bool, releaseOrdered: bool,
    registered: bool, source: Option<Source>, deleted: bool)

  datatype AnnouncementState = Pending | Adopted | Approved | Collected | Rejected | Expired | Superseded

  datatype Announcement = Announcement(
    serial: string, code: Secret, token: Secret, state: AnnouncementState,
    company: Option<nat>, site: Option<nat>, device: Option<nat>,
    expiresAt: nat, approvalExpiresAt: nat)

  datatype Claim = Claim(
    site: nat, company: nat, code: Secret, serial: string, expiresAt: nat,
    redeemed: Option<nat>, superseded: bool)

  /**
   * `lateRejects` are the announcements whose collection was rolled back and whose
   * rejection, a second statement on its own connection, has not run yet. `admitted` are the
   * sites whose key a request has shown: a site key is looked up before the store is called.
   */
  datatype Db = Db(
    now: nat,
    sites: map<nat, Site>,
    devices: map<nat, Device>, nextDevice: nat,
    announcements: map<nat, Announcement>, nextAnnouncement: nat,
    claims: map<nat, Claim>, nextClaim: nat,
    lateRejects: set<nat>, admitted: set<nat>)

  /** What a caller is told, as far as the theorems need it. */
  datatype Response =
    | Key(device: nat, key: Secret, grant: Grant)
    | Refused
    | SerialInvalid
    | SecretCollision
    | SiteMismatch
    | DeviceDisabled
    | RolledBack(announcement: nat)
    | Announced(announcement: nat, existing: bool, state: AnnouncementState)
    | Waiting(state: AnnouncementState)
    | OwnedElsewhere | ReleaseInProgress | DisabledLocally
    | Done

  /** Which record authorised a minted key. */
  datatype Grant = BySiteKey | ByClaim(claim: nat) | ByAnnouncement(announcement: nat)

  // ---- Devices -------------------------------------------------------------------

  predicate IsLive(devices: map<nat, Device>, i: nat, serial: string) {
    i in devices && !devices[i].deleted && devices[i].serial == serial
  }

  ghost function FindLive(devices: map<nat, Device>, serial: string): (r: Option<nat>)
    ensures r.Some? ==> IsLive(devices, r.value, serial)
    ensures r.None? ==> forall i :: !IsLive(devices, i, serial)
  {
    if i: nat :| IsLive(devices, i, serial) then Some(i) else None
  }

  predicate KeyTaken(devices: map<nat, Device>, key: Secret, except: nat) {
    exists i :: i in devices && i != except && !devices[i].deleted && devices[i].key == Some(key)
  }

  predicate OutOfService(d: Device) { d.status == DISABLED || !d.active }

  function FreshDevice(site: nat, serial: string, key: Secret, source: Source): Device {
    Device(site, serial, ONLINE, true, Some(key), false, false, true, Some(source), false)
  }

  /** The row the upsert leaves behind when it conflicts with a live row. */
  function Rotated(d: Device, key: Secret, source: Source): Device {
    d.(key := Some(key), revoked := false, registered := true, source := Some(source),
       status := if d.status == DISABLED then DISABLED else ONLINE)
  }

  /** registerDeviceTx as the caller's transaction sees it once it has committed or rolled back. */
  ghost function Register(db: Db, site: nat, serial: string, key: Secret, source: Source, grant: Grant): (Db, Response) {
    match FindLive(db.devices, serial)
    case None =>
      if KeyTaken(db.devices, key, db.nextDevice) then (db, SecretCollision)
      else (db.(devices := db.devices[db.nextDevice := FreshDevice(site, serial, key, source)],
                nextDevice := db.nextDevice + 1),
            Key(db.nextDevice, key, grant))
    case Some(i) =>
      if KeyTaken(db.devices, key, i) then (db, SecretCollision)
      else if db.devices[i].site != site then (db, SiteMismatch)
      else if OutOfService(db.devices[i]) then (db, DeviceDisabled)
      else (db.(devices := db.devices[i := Rotated(db.devices[i], key, source)]), Key(i, key, grant))
  }

  /** GetSiteByAPIKey: a key is only good for an active site that has not been retired. */
  function ShowSiteKey(db: Db, site: nat): (Db, Response) {
    if SiteUsable(db.sites, site) then (db.(admitted := db.admitted + {site}), Done) else (db, Refused)
  }

  /** RegisterDevice: the site key, looked up before, decided the site. */
  ghost function RegisterDevice(db: Db, site: nat, serial: string, key: Secret): (Db, Response) {
    if site !in db.sites || site !in db.admitted then (db, Refused)
    else Register(db, site, serial, key, ViaSiteKey, BySiteKey)
  }

  /** A device may report these three states for itself; anything else reads as ONLINE. */
  function Reported(s: Status): Status {
    if s == ONLINE || s == UPDATING || s == FAULT then s else ONLINE
  }

  function RecordHeartbeat(db: Db, device: nat, reported: Status): Db {
    if device !in db.devices || db.devices[device].deleted then db
    else
      var d := db.devices[device];
      db.(devices := db.devices[device :=
        d.(status := if d.status == DISABLED then d.status else Reported(reported))])
  }

  /** MarkDevicesOffline; `stale` are the rows whose last heartbeat is too old. */
  function MarkDevicesOffline(db: Db, stale: set<nat>): Db {
    db.(devices := map i | i in db.devices ::
      if i in stale && !db.devices[i].deleted && db.devices[i].status == ONLINE
      then db.devices[i].(status := OFFLINE) else db.devices[i])
  }

  // ---- Announcements -------------------------------------------------------------

  predicate HoldsSlot(s: AnnouncementState) { s == Pending || s == Adopted || s == Approved }

  /** Progress: every final state ranks the same. */
  function Rank(s: AnnouncementState): nat {
    match s case Pending => 0 case Adopted => 1 case Approved => 2 case _ => 3
  }

  predicate Overdue(a: Announcement, now: nat) {
    ((a.state == Pending || a.state == Adopted) && a.expiresAt <= now)
    || (a.state == Approved && a.approvalExpiresAt <= now)
  }

  /** The expiry update, for one serial or for the whole table. */
  function ExpireOverdue(anns: map<nat, Announcement>, now: nat, serial: Option<string>): map<nat, Announcement> {
    map i | i in anns ::
      if Overdue(anns[i], now) && (serial.None? || anns[i].serial == serial.value)
      then anns[i].(state := Expired) else anns[i]
  }

  predicate IsSlot(anns: map<nat, Announcement>, i: nat, serial: string) {
    i in anns && anns[i].serial == serial && HoldsSlot(anns[i].state)
  }

  ghost function FindSlot(anns: map<nat, Announcement>, serial: string): (r: Option<nat>)
    ensures r.Some? ==> IsSlot(anns, r.value, serial)
    ensures r.None? ==> forall i :: !IsSlot(anns, i, serial)
  {
    if i: nat :| IsSlot(anns, i, serial) then Some(i) else None
  }

  predicate TokenTaken(anns: map<nat, Announcement>, token: Secret) {
    exists i :: i in anns && anns[i].token == token
  }

  predicate CodeLive(anns: map<nat, Announcement>, i: nat, code: Secret) {
    i in anns && anns[i].code == code && (anns[i].state == Pending || anns[i].state == Adopted)
  }

  predicate CodeTaken(anns: map<nat, Announcement>, code: Secret) {
    exists i :: i in anns && CodeLive(anns, i, code)
  }

  predicate SerialChar(c: char) {
    'a' <= c <= 'z' || 'A' <= c <= 'Z' || IsDigit(c) || c == '_' || c == '-'
  }

  /** normalizeSerial. */
  function NormalizeSerial(text: string): Option<string> {
    var s := TrimSpace(text);
    if s == "" || |s| > MAX_SERIAL_LENGTH || exists k :: 0 <= k < |s| && !SerialChar(s[k]) then None else Some(s)
  }

  /** The insert at the end of Announce, under its two unique indexes. */
  ghost function InsertAnnouncement(db: Db, anns: map<nat, Announcement>, serial: string, code: Secret, token: Secret): (Db, Response) {
    if TokenTaken(anns, token) || CodeTaken(anns, code) then (db, SecretCollision)
    else
      (db.(announcements := anns[db.nextAnnouncement :=
             Announcement(serial, code, token, Pending, None, None, None, db.now + ANNOUNCEMENT_TTL, 0)],
           nextAnnouncement := db.nextAnnouncement + 1),
       Announced(db.nextAnnouncement, false, Pending))
  }

  ghost function Announce(db: Db, text: string, presented: Option<Secret>, code: Secret, token: Secret): (Db, Response) {
    match NormalizeSerial(text)
    case None => (db, SerialInvalid)
    case Some(serial) =>
      var anns := ExpireOverdue(db.announcements, db.now, Some(serial));
      match FindSlot(anns, serial)
      case None => InsertAnnouncement(db, anns, serial, code, token)
      case Some(i) =>
        if presented == Some(anns[i].token) || anns[i].state != Pending
        then (db.(announcements := anns), Announced(i, true, anns[i].state))
        else InsertAnnouncement(db, anns[i := anns[i].(state := Superseded)], serial, code, token)
  }

  predicate HasToken(anns: map<nat, Announcement>, i: nat, token: Secret) {
    i in anns && anns[i].token == token
  }

  ghost function FindToken(anns: map<nat, Announcement>, token: Secret): (r: Option<nat>)
    ensures r.Some? ==> HasToken(anns, r.value, token)
    ensures r.None? ==> forall i :: !HasToken(anns, i, token)
  {
    if i: nat :| HasToken(anns, i, token) then Some(i) else None
  }

  function SetState(db: Db, i: nat, s: AnnouncementState): Db
    requires i in db.announcements
  {
    db.(announcements := db.announcements[i := db.announcements[i].(state := s)])
  }

  predicate SiteUsable(sites: map<nat, Site>, site: nat) {
    site in sites && !sites[site].deleted && sites[site].active
  }

  /** The collection half of AnnouncementStatus, for an APPROVED row inside its window. */
  ghost function Collect(db: Db, i: nat, key: Secret): (Db, Response)
    requires i in db.announcements && db.announcements[i].site.Some?
  {
    var a := db.announcements[i];
    if !SiteUsable(db.sites, a.site.value) then (SetState(db, i, Rejected), Refused)
    else if a.company != Some(db.sites[a.site.value].company) then (SetState(db, i, Rejected), Refused)
    else
      var (after, r) := Register(db, a.site.value, a.serial, key, ViaAnnouncement, ByAnnouncement(i));
      match r
      case Key(d, _, _) =>
        (after.(announcements := db.announcements[i := a.(state := Collected, device := Some(d))]), r)
      case SiteMismatch => (db.(lateRejects := db.lateRejects + {i}), RolledBack(i))
      case DeviceDisabled => (db.(lateRejects := db.lateRejects + {i}), RolledBack(i))
      case _ => (db, r)
  }

  ghost function AnnouncementStatus(db: Db, token: Secret, key: Secret): (Db, Response) {
    match FindToken(db.announcements, token)
    case None => (db, Refused)
    case Some(i) =>
      var a := db.announcements[i];
      if a.state == Pending && db.now < a.expiresAt then (db, Waiting(Pending))
      else if a.state == Adopted && db.now < a.expiresAt then (db, Waiting(Adopted))
      else if a.state == Approved && db.now < a.approvalExpiresAt && a.site.Some? then Collect(db, i, key)
      else (db, Refused)
  }

  /**
   * The second half of rollbackThenReject. The statement names the row by id alone: it finds
   * nothing once the row has been purged, and the table's own constraints refuse it for a row
   * that has been collected in between, and for a row no company has adopted.
   */
  function LateReject(db: Db, i: nat): Db {
    if i !in db.lateRejects then db
    else
      var settled := db.(lateRejects := db.lateRejects - {i});
      if i !in db.announcements || db.announcements[i].device.Some? || db.announcements[i].company.None? then settled
      else SetState(settled, i, Rejected)
  }

  // ---- Ownership -----------------------------------------------------------------

  /** lookupTerminalOwnership: a live row at a site that has not been deleted. */
  ghost function Owner(db: Db, serial: string): (r: Option<nat>)
    ensures r.Some? ==> IsLive(db.devices, r.value, serial)
  {
    match FindLive(db.devices, serial)
    case None => None
    case Some(i) =>
      if db.devices[i].site in db.sites && !db.sites[db.devices[i].site].deleted then Some(i) else None
  }

  /** verdictFor: None means the company may go ahead. */
  ghost function Verdict(db: Db, serial: string, company: nat): Option<Response> {
    match Owner(db, serial)
    case None => None
    case Some(i) =>
      var d := db.devices[i];
      if d.site in db.sites && db.sites[d.site].company != company then Some(OwnedElsewhere)
      else if d.releaseOrdered then Some(ReleaseInProgress)
      else if OutOfService(d) then Some(DisabledLocally)
      else None
  }

  predicate Adoptable(anns: map<nat, Announcement>, i: nat, code: Secret, now: nat) {
    i in anns && anns[i].code == code && anns[i].state == Pending && anns[i].expiresAt > now
  }

  ghost function AdoptAnnouncement(db: Db, company: nat, code: Secret): (Db, Response) {
    if i: nat :| Adoptable(db.announcements, i, code, db.now) then
      match Verdict(db, db.announcements[i].serial, company)
      case Some(refusal) => (db, refusal)
      case None =>
        (db.(announcements := db.announcements[i :=
           db.announcements[i].(state := Adopted, company := Some(company), expiresAt := db.now + ANNOUNCEMENT_TTL)]),
         Done)
    else (db, Refused)
  }

  ghost function ApproveAnnouncement(db: Db, company: nat, i: nat, site: nat): (Db, Response) {
    if i !in db.announcements then (db, Refused)
    else
      var a := db.announcements[i];
      if a.company != Some(company) || a.state != Adopted || a.expiresAt <= db.now then (db, Refused)
      else if !SiteUsable(db.sites, site) || db.sites[site].company != company then (db, Refused)
      else match Verdict(db, a.serial, company)
        case Some(refusal) => (db, refusal)
        case None =>
          (db.(announcements := db.announcements[i :=
             a.(state := Approved, site := Some(site), approvalExpiresAt := db.now + APPROVAL_TTL)]),
           Done)
  }

  function RejectAnnouncement(db: Db, company: nat, i: nat): (Db, Response) {
    if i in db.announcements && db.announcements[i].company == Some(company)
       && (db.announcements[i].state == Adopted || db.announcements[i].state == Approved)
    then (SetState(db, i, Rejected), Done)
    else (db, Refused)
  }

  predicate Final(s: AnnouncementState) { Rank(s) == 3 }

  /** PurgeAnnouncements; `aged` are the rows created before the retention window. */
  function PurgeAnnouncements(anns: map<nat, Announcement>, aged: set<nat>): map<nat, Announcement> {
    map i | i in anns && !(i in aged && Final(anns[i].state)) :: anns[i]
  }

  // ---- Claim codes ---------------------------------------------------------------

  predicate Open(c: Claim) { c.redeemed.None? && !c.superseded }

  function SupersedeClaims(claims: map<nat, Claim>, site: nat, serial: string): map<nat, Claim> {
    map i | i in claims ::
      if Open(claims[i]) && claims[i].site == site && claims[i].serial == serial
      then claims[i].(superseded := true) else claims[i]
  }

  predicate ClaimCodeTaken(claims: map<nat, Claim>, code: Secret) {
    exists i :: i in claims && claims[i].code == code
  }

  function ClaimTtl(ttl: int): nat {
    if ttl <= 0 then DEFAULT_CLAIM_TTL else if ttl > MAX_CLAIM_TTL then MAX_CLAIM_TTL else ttl
  }

  function IssueClaimCode(db: Db, company: nat, site: nat, text: string, ttl: int, code: Secret): (Db, Response) {
    var serial := TrimSpace(text);
    if serial == "" || ByteLength(serial) > MAX_SERIAL_LENGTH then (db, SerialInvalid)
    else if !SiteUsable(db.sites, site) || db.sites[site].company != company then (db, Refused)
    else if ClaimCodeTaken(db.claims, code) then (db, SecretCollision)
    else
      (db.(claims := SupersedeClaims(db.claims, site, serial)[db.nextClaim :=
             Claim(site, company, code, serial, db.now + ClaimTtl(ttl), None, false)],
           nextClaim := db.nextClaim + 1),
       Done)
  }

  const SECONDS_A_DAY := 86400

  /** PurgeExpiredClaimCodes. */
  function PurgeClaims(claims: map<nat, Claim>, now: nat, days: int): map<nat, Claim> {
    if days < 0 then claims
    else map i | i in claims && !(claims[i].expiresAt < now - days * SECONDS_A_DAY) :: claims[i]
  }

  /** The least letter a letter folds to: two runes beside the ASCII letters fold to one of them. */
  function FoldChar(c: char): char {
    if 'A' <= c <= 'Z' then (c as int + 32) as char
    else if c == '\U{17F}' then 's'
    else if c == '\U{212A}' then 'k'
    else c
  }

  /** strings.EqualFold against a serial of ASCII characters. */
  predicate EqualFold(a: string, b: string) {
    |a| == |b| && forall i :: 0 <= i < |a| ==> FoldChar(a[i]) == FoldChar(b[i])
  }

  predicate Redeemable(claims: map<nat, Claim>, i: nat, code: Secret, now: nat) {
    i in claims && claims[i].code == code && Open(claims[i]) && claims[i].expiresAt > now
  }

  ghost function RedeemClaimCode(db: Db, code: Secret, serial: string, key: Secret): (Db, Response) {
    if TrimSpace(serial) == "" then (db, SerialInvalid)
    else if i: nat :| Redeemable(db.claims, i, code, db.now) then
      var c := db.claims[i];
      if !EqualFold(c.serial, TrimSpace(serial)) || !SiteUsable(db.sites, c.site) then (db, Refused)
      else
        var (after, r) := Register(db, c.site, c.serial, key, ViaClaimCode, ByClaim(i));
        match r
        case Key(d, _, _) => (after.(claims := db.claims[i := c.(redeemed := Some(d))]), r)
        case _ => (db, r)
    else (db, Refused)
  }

  // ---- Administration (the console and the platform) -----------------------------------

  /** The terminal an administrative call resolves: live, at a site that is not deleted. */
  predicate Resolvable(db: Db, i: nat) {
    i in db.devices && !db.devices[i].deleted
    && db.devices[i].site in db.sites && !db.sites[db.devices[i].site].deleted
  }

  datatype Admin =
    | Disable | Enable | Revoke | Retire | MoveTo(site: nat) | OrderRelease | CancelRelease | FinalizeRelease

  function Administered(d: Device, action: Admin): Device {
    match action
    case Disable => d.(status := DISABLED, active := false)
    case Enable =>
      d.(status := if d.status != DISABLED then d.status else if d.registered then OFFLINE else PROVISIONING, active := true)
    case Revoke => d.(key := None, revoked := true, status := DISABLED, active := false)
    case Retire => d.(deleted := true, key := None, revoked := true, status := DISABLED, active := false)
    case MoveTo(site) => d.(site := site)
    case OrderRelease => d.(releaseOrdered := true)
    case CancelRelease => d.(releaseOrdered := false)
    case FinalizeRelease => d.(deleted := true, key := None, revoked := true, status := DISABLED, active := false)
  }

  /** A finalized release voids whatever was in flight for the serial. */
  function VoidInFlight(anns: map<nat, Announcement>, serial: string): map<nat, Announcement> {
    map i | i in anns ::
      if anns[i].serial == serial && HoldsSlot(anns[i].state)
      then anns[i].(state := if anns[i].company.None? then Expired else Rejected) else anns[i]
  }

  function Administer(db: Db, i: nat, action: Admin): Db {
    if !Resolvable(db, i) then db
    else
      var d := db.devices[i];
      if action.MoveTo? && !(action.site in db.sites && !db.sites[action.site].deleted
                             && db.sites[action.site].company == db.sites[d.site].company) then db
      else if (action.CancelRelease? || action.FinalizeRelease?) && !d.releaseOrdered then db
      else
        var after := db.(devices := db.devices[i := Administered(d, action)]);
        if action.FinalizeRelease? then after.(announcements := VoidInFlight(db.announcements, d.serial)) else after
  }

  /** RetireSite: the site and every live terminal at it. */
  function RetireSite(db: Db, site: nat): Db {
    if site !in db.sites || db.sites[site].deleted then db
    else db.(sites := db.sites[site := db.sites[site].(deleted := true, active := false)],
             devices := map i | i in db.devices ::
               if db.devices[i].site == site && !db.devices[i].deleted
               then db.devices[i].(deleted := true, active := false, status := DISABLED) else db.devices[i])
  }

  // ---- Runs ----------------------------------------------------------------------

  datatype Op =
    | DoAnnounce(text: string, presented: Option<Secret>, code: Secret, token: Secret)
    | DoPoll(pollToken: Secret, pollKey: Secret)
    | DoLateReject(late: nat)
    | DoAdopt(adopter: nat, adoptCode: Secret)
    | DoApprove(approver: nat, approved: nat, approvedSite: nat)
    | DoReject(rejecter: nat, rejected: nat)
    | DoExpire
    | DoPurgeAnnouncements(aged: set<nat>)
    | DoPurgeClaims(days: int)
    | DoIssueClaim(issuer: nat, claimSite: nat, claimText: string, ttl: int, claimCode: Secret)
    | DoRedeem(redeemCode: Secret, redeemSerial: string, redeemKey: Secret)
    | DoShowSiteKey(shown: nat)
    | DoRegister(registerSite: nat, registerSerial: string, registerKey: Secret)
    | DoHeartbeat(beating: nat, reported: Status)
    | DoOfflineSweep(stale: set<nat>)
    | DoAdminister(administered: nat, action: Admin)
    | DoCreateSite(siteId: nat, siteCompany: nat)
    | DoSwitchSite(switched: nat, siteActive: bool)
    | DoRetireSite(retired: nat)
    | DoTick(seconds: nat)

  ghost function Apply(db: Db, op: Op): (Db, Response) {
    match op
    case DoAnnounce(text, presented, code, token) => Announce(db, text, presented, code, token)
    case DoPoll(token, key) => AnnouncementStatus(db, token, key)
    case DoLateReject(i) => (LateReject(db, i), Done)
    case DoAdopt(company, code) => AdoptAnnouncement(db, company, code)
    case DoApprove(company, i, site) => ApproveAnnouncement(db, company, i, site)
    case DoReject(company, i) => RejectAnnouncement(db, company, i)
    case DoExpire => (db.(announcements := ExpireOverdue(db.announcements, db.now, None)), Done)
    case DoPurgeAnnouncements(aged) => (db.(announcements := PurgeAnnouncements(db.announcements, aged)), Done)
    case DoPurgeClaims(days) => (db.(claims := PurgeClaims(db.claims, db.now, days)), Done)
    case DoIssueClaim(company, site, text, ttl, code) => IssueClaimCode(db, company, site, text, ttl, code)
    case DoRedeem(code, serial, key) => RedeemClaimCode(db, code, serial, key)
    case DoShowSiteKey(site) => ShowSiteKey(db, site)
    case DoRegister(site, serial, key) => RegisterDevice(db, site, serial, key)
    case DoHeartbeat(device, status) => (RecordHeartbeat(db, device, status), Done)
    case DoOfflineSweep(stale) => (MarkDevicesOffline(db, stale), Done)
    case DoAdminister(i, action) => (Administer(db, i, action), Done)
    case DoCreateSite(id, company) =>
      (if id in db.sites then db else db.(sites := db.sites[id := Site(company, true, false)]), Done)
    case DoSwitchSite(id, active) =>
      (if id in db.sites && !db.sites[id].deleted
       then db.(sites := db.sites[id := db.sites[id].(active := active)]) else db, Done)
    case DoRetireSite(id) => (RetireSite(db, id), Done)
    case DoTick(seconds) => (db.(now := db.now + seconds), Done)
  }

  /** The tables after the first n steps of a run. */
  ghost function At(db: Db, ops: seq<Op>, n: nat): Db
    requires n <= |ops|
  {
    if n == 0 then db else Apply(At(db, ops, n - 1), ops[n - 1]).0
  }

  /** What step n of a run answers. */
  ghost function Answer(db: Db, ops: seq<Op>, n: nat): Response
    requires n < |ops|
  {
    Apply(At(db, ops, n), ops[n]).1
  }
}
