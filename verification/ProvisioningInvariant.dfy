/**
 * What every step of the provisioning tables keeps.
 *
 * `Inv` is the inductive invariant: the unique indexes, the state machine's shape, and the
 * facts the code relies on without checking. `Evolves` is what any step may change. This
 * module proves both for every step; ProvisioningRuns draws the conclusions about runs.
 */
module ProvisioningInvariant {
  import opened Options
  import opened Text
  import opened Provisioning

  // ---- Devices -------------------------------------------------------------------

  /** In service is recorded twice, by status and by flag; no step lets the two disagree. */
  ghost predicate DeviceShape(d: Device, sites: map<nat, Site>) {
    d.site in sites
    && (!d.deleted ==> (d.active <==> d.status != DISABLED))
    && (d.revoked ==> d.key.None?)
  }

  ghost predicate HoldsKey(devices: map<nat, Device>, i: nat, key: Secret) {
    i in devices && !devices[i].deleted && devices[i].key == Some(key)
  }

  ghost predicate UniqueSerials(devices: map<nat, Device>) {
    forall i, j, serial | IsLive(devices, i, serial) && IsLive(devices, j, serial) :: i == j
  }

  ghost predicate UniqueKeys(devices: map<nat, Device>) {
    forall i, j, key | HoldsKey(devices, i, key) && HoldsKey(devices, j, key) :: i == j
  }

  ghost predicate DevicesOk(sites: map<nat, Site>, devices: map<nat, Device>, next: nat) {
    && (forall i | i in devices :: i < next && DeviceShape(devices[i], sites))
    && UniqueSerials(devices) && UniqueKeys(devices)
  }

  ghost predicate DeviceEvolves(sa: map<nat, Site>, d: Device, sb: map<nat, Site>, e: Device) {
    d.serial == e.serial && d.site in sa && e.site in sb && sa[d.site].company == sb[e.site].company
    && (d.deleted ==> e == d)
  }

  ghost predicate DevicesEvolve(sa: map<nat, Site>, a: map<nat, Device>, sb: map<nat, Site>, b: map<nat, Device>) {
    forall i | i in a :: i in b && DeviceEvolves(sa, a[i], sb, b[i])
  }

  /** Rewriting rows in place: no row becomes live, no key moves except to its own row. */
  lemma RewriteDevices(sites: map<nat, Site>, a: map<nat, Device>, b: map<nat, Device>, next: nat)
    requires DevicesOk(sites, a, next) && b.Keys == a.Keys
    requires forall i | i in b :: DeviceShape(b[i], sites) && b[i].serial == a[i].serial && (a[i].deleted ==> b[i].deleted)
    requires forall i, key | HoldsKey(b, i, key) :: HoldsKey(a, i, key)
    ensures DevicesOk(sites, b, next)
  {
    forall i, serial | IsLive(b, i, serial) ensures IsLive(a, i, serial) {}
  }

  /** Replacing one live row, possibly with a key no other live row holds. */
  lemma ReplaceDevice(sites: map<nat, Site>, a: map<nat, Device>, i: nat, d: Device, next: nat)
    requires DevicesOk(sites, a, next) && i in a && !a[i].deleted
    requires DeviceShape(d, sites) && d.serial == a[i].serial
    requires d.key.None? || !KeyTaken(a, d.key.value, i)
    requires sites[d.site].company == sites[a[i].site].company
    ensures DevicesOk(sites, a[i := d], next)
    ensures DevicesEvolve(sites, a, sites, a[i := d])
  {
    var b := a[i := d];
    forall j, serial | IsLive(b, j, serial) ensures IsLive(a, j, serial) {}
    forall j, k, key | HoldsKey(b, j, key) && HoldsKey(b, k, key) ensures j == k {
      if j != i && k != i { assert HoldsKey(a, j, key) && HoldsKey(a, k, key); }
    }
  }

  lemma InsertDevice(sites: map<nat, Site>, a: map<nat, Device>, d: Device, next: nat)
    requires DevicesOk(sites, a, next) && DeviceShape(d, sites)
    requires forall i :: !IsLive(a, i, d.serial)
    requires d.key.None? || !KeyTaken(a, d.key.value, next)
    ensures DevicesOk(sites, a[next := d], next + 1)
    ensures DevicesEvolve(sites, a, sites, a[next := d])
  {
    var b := a[next := d];
    assert next !in a;
    forall j, k, serial | IsLive(b, j, serial) && IsLive(b, k, serial) ensures j == k {
      if j != next { assert IsLive(a, j, serial); }
      if k != next { assert IsLive(a, k, serial); }
    }
    forall j, k, key | HoldsKey(b, j, key) && HoldsKey(b, k, key) ensures j == k {
      if j != next { assert HoldsKey(a, j, key); }
      if k != next { assert HoldsKey(a, k, key); }
    }
  }

  // ---- Announcements -------------------------------------------------------------

  /** The CHECK constraints of the announcements table, and the tenancy of an approved site. */
  ghost predicate AnnouncementShape(a: Announcement, sites: map<nat, Site>) {
    && (a.state in {Pending, Superseded} ==> a.company.None?)
    && (a.state in {Adopted, Approved, Collected, Rejected} ==> a.company.Some?)
    && (a.state in {Pending, Adopted} ==> a.site.None?)
    && (a.state in {Approved, Collected} ==> a.site.Some?)
    && (a.state == Collected <==> a.device.Some?)
    && (a.site.Some? ==> a.site.value in sites && a.company == Some(sites[a.site.value].company))
  }

  ghost predicate UniqueSlots(anns: map<nat, Announcement>) {
    forall i, j, serial | IsSlot(anns, i, serial) && IsSlot(anns, j, serial) :: i == j
  }

  ghost predicate UniqueTokens(anns: map<nat, Announcement>) {
    forall i, j, token | HasToken(anns, i, token) && HasToken(anns, j, token) :: i == j
  }

  ghost predicate UniqueCodes(anns: map<nat, Announcement>) {
    forall i, j, code | CodeLive(anns, i, code) && CodeLive(anns, j, code) :: i == j
  }

  ghost predicate AnnouncementsOk(sites: map<nat, Site>, anns: map<nat, Announcement>, next: nat) {
    && (forall i | i in anns :: i < next && AnnouncementShape(anns[i], sites))
    && UniqueSlots(anns) && UniqueTokens(anns) && UniqueCodes(anns)
  }

  ghost predicate AnnouncementEvolves(a: Announcement, b: Announcement) {
    a.serial == b.serial && a.code == b.code && a.token == b.token
    && Rank(a.state) <= Rank(b.state)
    && (a.state == Collected ==> b.state == Collected)
    && (b.state in {Pending, Adopted} ==> a.state in {Pending, Adopted})
    && (a.company.Some? ==> b.company == a.company)
    && (a.site.Some? ==> b.site == a.site)
    && (a.device.Some? ==> b.device == a.device)
  }

  /** Rows move forward or are purged, and a purged row never comes back: new ones start at `next`. */
  ghost predicate AnnouncementsEvolve(a: map<nat, Announcement>, next: nat, b: map<nat, Announcement>) {
    && (forall i | i in a && i in b :: AnnouncementEvolves(a[i], b[i]))
    && (forall i | i in b && i !in a :: next <= i)
  }

  /** A rejection still to be recorded is for a row an operator approved, if it is still there. */
  ghost predicate LateOk(anns: map<nat, Announcement>, next: nat, late: set<nat>) {
    forall i | i in late :: i < next && (i in anns ==> anns[i].company.Some? && Rank(anns[i].state) >= 2)
  }

  /** Rewriting rows forward and dropping rows keep the slots, tokens and codes unique. */
  lemma RewriteAnnouncements(sites: map<nat, Site>, a: map<nat, Announcement>, b: map<nat, Announcement>, next: nat, late: set<nat>)
    requires AnnouncementsOk(sites, a, next) && LateOk(a, next, late) && b.Keys <= a.Keys
    requires forall i | i in b :: AnnouncementEvolves(a[i], b[i]) && AnnouncementShape(b[i], sites)
    ensures AnnouncementsOk(sites, b, next) && AnnouncementsEvolve(a, next, b) && LateOk(b, next, late)
  {
    forall i, serial | IsSlot(b, i, serial) ensures IsSlot(a, i, serial) { assert AnnouncementEvolves(a[i], b[i]); }
    forall i, token | HasToken(b, i, token) ensures HasToken(a, i, token) { assert AnnouncementEvolves(a[i], b[i]); }
    forall i, code | CodeLive(b, i, code) ensures CodeLive(a, i, code) { assert AnnouncementEvolves(a[i], b[i]); }
  }

  lemma ReplaceAnnouncement(sites: map<nat, Site>, a: map<nat, Announcement>, i: nat, r: Announcement, next: nat, late: set<nat>)
    requires AnnouncementsOk(sites, a, next) && LateOk(a, next, late) && i in a
    requires AnnouncementEvolves(a[i], r) && AnnouncementShape(r, sites)
    ensures AnnouncementsOk(sites, a[i := r], next) && AnnouncementsEvolve(a, next, a[i := r]) && LateOk(a[i := r], next, late)
  {
    RewriteAnnouncements(sites, a, a[i := r], next, late);
  }

  lemma AddAnnouncement(sites: map<nat, Site>, a: map<nat, Announcement>, r: Announcement, next: nat, late: set<nat>)
    requires AnnouncementsOk(sites, a, next) && LateOk(a, next, late) && AnnouncementShape(r, sites)
    requires forall i :: !IsSlot(a, i, r.serial)
    requires !TokenTaken(a, r.token) && !CodeTaken(a, r.code)
    ensures AnnouncementsOk(sites, a[next := r], next + 1)
    ensures AnnouncementsEvolve(a, next, a[next := r]) && LateOk(a[next := r], next + 1, late)
  {
    var b := a[next := r];
    assert next !in a;
    forall i, j, serial | IsSlot(b, i, serial) && IsSlot(b, j, serial) ensures i == j {
      if i != next { assert IsSlot(a, i, serial); }
      if j != next { assert IsSlot(a, j, serial); }
    }
    forall i, j, token | HasToken(b, i, token) && HasToken(b, j, token) ensures i == j {
      if i != next { assert HasToken(a, i, token); }
      if j != next { assert HasToken(a, j, token); }
    }
    forall i, j, code | CodeLive(b, i, code) && CodeLive(b, j, code) ensures i == j {
      if i != next { assert CodeLive(a, i, code); }
      if j != next { assert CodeLive(a, j, code); }
    }
  }

  lemma AnnouncementsEvolveTransitively(a: map<nat, Announcement>, m: nat, b: map<nat, Announcement>, n: nat,
                                        c: map<nat, Announcement>)
    requires m <= n && forall i | i in a :: i < m
    requires AnnouncementsEvolve(a, m, b) && AnnouncementsEvolve(b, n, c)
    ensures AnnouncementsEvolve(a, m, c)
  {
    forall i | i in a && i in c ensures AnnouncementEvolves(a[i], c[i]) {
      assert AnnouncementEvolves(a[i], b[i]) && AnnouncementEvolves(b[i], c[i]);
    }
  }

  // ---- Claims --------------------------------------------------------------------

  ghost predicate ClaimShape(c: Claim, sites: map<nat, Site>) {
    c.site in sites && c.company == sites[c.site].company && (c.redeemed.None? || !c.superseded)
  }

  ghost predicate IsOpen(claims: map<nat, Claim>, i: nat, site: nat, serial: string) {
    i in claims && Open(claims[i]) && claims[i].site == site && claims[i].serial == serial
  }

  ghost predicate HasCode(claims: map<nat, Claim>, i: nat, code: Secret) {
    i in claims && claims[i].code == code
  }

  ghost predicate ClaimsOk(sites: map<nat, Site>, claims: map<nat, Claim>, next: nat) {
    && (forall i | i in claims :: i < next && ClaimShape(claims[i], sites))
    && (forall i, j, site, serial | IsOpen(claims, i, site, serial) && IsOpen(claims, j, site, serial) :: i == j)
    && (forall i, j, code | HasCode(claims, i, code) && HasCode(claims, j, code) :: i == j)
  }

  ghost predicate ClaimEvolves(a: Claim, b: Claim) {
    a.serial == b.serial && a.code == b.code && a.site == b.site && a.company == b.company
    && (a.redeemed.Some? ==> b.redeemed == a.redeemed) && (a.superseded ==> b.superseded)
  }

  ghost predicate ClaimsEvolve(a: map<nat, Claim>, next: nat, b: map<nat, Claim>) {
    && (forall i | i in a && i in b :: ClaimEvolves(a[i], b[i]))
    && (forall i | i in b && i !in a :: next <= i)
  }

  lemma RewriteClaims(sites: map<nat, Site>, a: map<nat, Claim>, b: map<nat, Claim>, next: nat)
    requires ClaimsOk(sites, a, next) && b.Keys <= a.Keys
    requires forall i | i in b :: ClaimEvolves(a[i], b[i]) && ClaimShape(b[i], sites)
    ensures ClaimsOk(sites, b, next) && ClaimsEvolve(a, next, b)
  {
    forall i, site, serial | IsOpen(b, i, site, serial) ensures IsOpen(a, i, site, serial) { assert ClaimEvolves(a[i], b[i]); }
    forall i, code | HasCode(b, i, code) ensures HasCode(a, i, code) { assert ClaimEvolves(a[i], b[i]); }
  }

  lemma IssueKeepsClaims(sites: map<nat, Site>, a: map<nat, Claim>, c: Claim, next: nat)
    requires ClaimsOk(sites, a, next) && ClaimShape(c, sites) && !ClaimCodeTaken(a, c.code)
    ensures var b := SupersedeClaims(a, c.site, c.serial)[next := c];
            ClaimsOk(sites, b, next + 1) && ClaimsEvolve(a, next, b)
  {
    var s := SupersedeClaims(a, c.site, c.serial);
    assert forall i | i in s :: ClaimShape(a[i], sites);
    RewriteClaims(sites, a, s, next);
    var b := s[next := c];
    assert next !in a;
    forall i, j, site, serial | IsOpen(b, i, site, serial) && IsOpen(b, j, site, serial) ensures i == j {
      if i != next { assert IsOpen(s, i, site, serial); }
      if j != next { assert IsOpen(s, j, site, serial); }
    }
    forall i, j, code | HasCode(b, i, code) && HasCode(b, j, code) ensures i == j {
      if i != next { assert HasCode(s, i, code); }
      if j != next { assert HasCode(s, j, code); }
    }
  }

  // ---- The whole database ----------------------------------------------------------

  ghost predicate SitesEvolve(a: map<nat, Site>, b: map<nat, Site>) {
    forall s | s in a :: s in b && b[s].company == a[s].company && (a[s].deleted ==> b[s].deleted)
  }

  ghost predicate Inv(db: Db) {
    && DevicesOk(db.sites, db.devices, db.nextDevice)
    && AnnouncementsOk(db.sites, db.announcements, db.nextAnnouncement)
    && ClaimsOk(db.sites, db.claims, db.nextClaim)
    && LateOk(db.announcements, db.nextAnnouncement, db.lateRejects)
  }

  ghost predicate Evolves(a: Db, b: Db) {
    && a.now <= b.now && a.nextAnnouncement <= b.nextAnnouncement && a.nextClaim <= b.nextClaim
    && SitesEvolve(a.sites, b.sites)
    && DevicesEvolve(a.sites, a.devices, b.sites, b.devices)
    && AnnouncementsEvolve(a.announcements, a.nextAnnouncement, b.announcements)
    && ClaimsEvolve(a.claims, a.nextClaim, b.claims)
  }

  ghost predicate Keeps(db: Db, after: Db) { Inv(after) && Evolves(db, after) }

  lemma NoChangeKeeps(db: Db)
    requires Inv(db)
    ensures Keeps(db, db)
  {
  }

  /** Registration, from any of its three callers. */
  lemma RegisterKeeps(db: Db, site: nat, serial: string, key: Secret, source: Source, grant: Grant)
    requires Inv(db) && site in db.sites
    ensures var (after, r) := Register(db, site, serial, key, source, grant);
            && DevicesOk(db.sites, after.devices, after.nextDevice)
            && DevicesEvolve(db.sites, db.devices, db.sites, after.devices)
            && after == db.(devices := after.devices, nextDevice := after.nextDevice)
            && (r.Key? ==> r == Key(r.device, key, grant) && IsLive(after.devices, r.device, serial)
                           && after.devices[r.device].site == site && HoldsKey(after.devices, r.device, key))
            && (!r.Key? ==> after == db)
  {
    var found := FindLive(db.devices, serial);
    if found.None? {
      if !KeyTaken(db.devices, key, db.nextDevice) {
        InsertDevice(db.sites, db.devices, FreshDevice(site, serial, key, source), db.nextDevice);
      }
    } else {
      var i := found.value;
      if !KeyTaken(db.devices, key, i) && db.devices[i].site == site && !OutOfService(db.devices[i]) {
        ReplaceDevice(db.sites, db.devices, i, Rotated(db.devices[i], key, source), db.nextDevice);
      }
    }
  }

  lemma RegisterDeviceKeeps(db: Db, site: nat, serial: string, key: Secret)
    requires Inv(db)
    ensures Keeps(db, RegisterDevice(db, site, serial, key).0)
  {
    NoChangeKeeps(db);
    if site in db.sites && site in db.admitted { RegisterKeeps(db, site, serial, key, ViaSiteKey, BySiteKey); }
  }

  lemma ShowingKeeps(db: Db, site: nat)
    requires Inv(db)
    ensures Keeps(db, ShowSiteKey(db, site).0)
  {
    NoChangeKeeps(db);
  }

  lemma HeartbeatKeeps(db: Db, device: nat, reported: Status)
    requires Inv(db)
    ensures Keeps(db, RecordHeartbeat(db, device, reported))
  {
    NoChangeKeeps(db);
    if device in db.devices && !db.devices[device].deleted {
      var d := RecordHeartbeat(db, device, reported).devices[device];
      assert DeviceShape(db.devices[device], db.sites);
      OwnKeyIsNotTaken(db, device);
      ReplaceDevice(db.sites, db.devices, device, d, db.nextDevice);
    }
  }

  lemma OwnKeyIsNotTaken(db: Db, i: nat)
    requires Inv(db) && i in db.devices && !db.devices[i].deleted
    ensures db.devices[i].key.Some? ==> !KeyTaken(db.devices, db.devices[i].key.value, i)
  {
    if db.devices[i].key.Some? {
      var key := db.devices[i].key.value;
      assert HoldsKey(db.devices, i, key);
      forall j | j in db.devices && !db.devices[j].deleted && db.devices[j].key == Some(key) ensures j == i {
        assert HoldsKey(db.devices, j, key);
      }
    }
  }

  lemma SweepKeeps(db: Db, stale: set<nat>)
    requires Inv(db)
    ensures Keeps(db, MarkDevicesOffline(db, stale))
  {
    NoChangeKeeps(db);
    var b := MarkDevicesOffline(db, stale).devices;
    forall i | i in b ensures DeviceShape(b[i], db.sites) { assert DeviceShape(db.devices[i], db.sites); }
    forall i, key | HoldsKey(b, i, key) ensures HoldsKey(db.devices, i, key) {}
    RewriteDevices(db.sites, db.devices, b, db.nextDevice);
  }

  lemma ExpiryKeeps(db: Db, serial: Option<string>)
    requires Inv(db)
    ensures Keeps(db, db.(announcements := ExpireOverdue(db.announcements, db.now, serial)))
  {
    NoChangeKeeps(db);
    var b := ExpireOverdue(db.announcements, db.now, serial);
    forall i | i in b ensures AnnouncementEvolves(db.announcements[i], b[i]) && AnnouncementShape(b[i], db.sites) {
      assert AnnouncementShape(db.announcements[i], db.sites);
    }
    RewriteAnnouncements(db.sites, db.announcements, b, db.nextAnnouncement, db.lateRejects);
  }

  lemma PurgeKeeps(db: Db, aged: set<nat>, days: int)
    requires Inv(db)
    ensures Keeps(db, db.(announcements := PurgeAnnouncements(db.announcements, aged)))
    ensures Keeps(db, db.(claims := PurgeClaims(db.claims, db.now, days)))
  {
    NoChangeKeeps(db);
    RewriteAnnouncements(db.sites, db.announcements, PurgeAnnouncements(db.announcements, aged), db.nextAnnouncement, db.lateRejects);
    RewriteClaims(db.sites, db.claims, PurgeClaims(db.claims, db.now, days), db.nextClaim);
  }

  lemma AddAfter(sites: map<nat, Site>, a: map<nat, Announcement>, anns: map<nat, Announcement>, r: Announcement,
                 next: nat, late: set<nat>)
    requires AnnouncementsOk(sites, a, next) && AnnouncementsEvolve(a, next, anns)
    requires AnnouncementsOk(sites, anns, next) && LateOk(anns, next, late) && AnnouncementShape(r, sites)
    requires forall i :: !IsSlot(anns, i, r.serial)
    requires !TokenTaken(anns, r.token) && !CodeTaken(anns, r.code)
    ensures AnnouncementsOk(sites, anns[next := r], next + 1)
    ensures AnnouncementsEvolve(a, next, anns[next := r]) && LateOk(anns[next := r], next + 1, late)
  {
    assert forall i | i in a :: i < next;
    AddAnnouncement(sites, anns, r, next, late);
    hide AnnouncementsOk;
    hide LateOk;
    AnnouncementsEvolveTransitively(a, next, anns, next, anns[next := r]);
  }

  lemma InsertedKeeps(db: Db, anns: map<nat, Announcement>, r: Announcement)
    requires Inv(db) && Keeps(db, db.(announcements := anns))
    requires AnnouncementShape(r, db.sites) && forall i :: !IsSlot(anns, i, r.serial)
    requires !TokenTaken(anns, r.token) && !CodeTaken(anns, r.code)
    ensures Keeps(db, db.(announcements := anns[db.nextAnnouncement := r], nextAnnouncement := db.nextAnnouncement + 1))
  {
    hide DevicesOk;
    hide ClaimsOk;
    hide AnnouncementsOk;
    hide AnnouncementsEvolve;
    hide DevicesEvolve;
    hide ClaimsEvolve;
    hide SitesEvolve;
    hide LateOk;
    AddAfter(db.sites, db.announcements, anns, r, db.nextAnnouncement, db.lateRejects);
  }

  lemma InsertKeeps(db: Db, anns: map<nat, Announcement>, serial: string, code: Secret, token: Secret)
    requires Inv(db) && Keeps(db, db.(announcements := anns))
    requires forall i :: !IsSlot(anns, i, serial)
    ensures Keeps(db, InsertAnnouncement(db, anns, serial, code, token).0)
  {
    hide Inv;
    hide Keeps;
    if TokenTaken(anns, token) || CodeTaken(anns, code) {
      NoChangeKeeps(db);
    } else {
      InsertedKeeps(db, anns, Announcement(serial, code, token, Pending, None, None, None, db.now + ANNOUNCEMENT_TTL, 0));
    }
  }

  lemma AnnounceKeeps(db: Db, text: string, presented: Option<Secret>, code: Secret, token: Secret)
    requires Inv(db)
    ensures Keeps(db, Announce(db, text, presented, code, token).0)
  {
    NoChangeKeeps(db);
    if NormalizeSerial(text).Some? {
      var serial := NormalizeSerial(text).value;
      ExpiryKeeps(db, Some(serial));
      var anns := ExpireOverdue(db.announcements, db.now, Some(serial));
      var slot := FindSlot(anns, serial);
      if slot.None? {
        InsertKeeps(db, anns, serial, code, token);
      } else if presented != Some(anns[slot.value].token) && anns[slot.value].state == Pending {
        SupersedeKeeps(db, anns, slot.value, serial);
        InsertKeeps(db, anns[slot.value := anns[slot.value].(state := Superseded)], serial, code, token);
      }
    }
  }

  lemma SupersedeKeeps(db: Db, anns: map<nat, Announcement>, i: nat, serial: string)
    requires Inv(db) && Keeps(db, db.(announcements := anns))
    requires IsSlot(anns, i, serial) && anns[i].state == Pending
    ensures var gone := anns[i := anns[i].(state := Superseded)];
            Keeps(db, db.(announcements := gone)) && forall j :: !IsSlot(gone, j, serial)
  {
    var r := anns[i].(state := Superseded);
    assert AnnouncementShape(anns[i], db.sites);
    ReplaceAnnouncement(db.sites, anns, i, r, db.nextAnnouncement, db.lateRejects);
    AnnouncementsEvolveTransitively(db.announcements, db.nextAnnouncement, anns, db.nextAnnouncement, anns[i := r]);
    var gone := anns[i := r];
    forall j ensures !IsSlot(gone, j, serial) {
      if j != i { assert IsSlot(gone, j, serial) ==> IsSlot(anns, j, serial); }
    }
  }

  lemma AdvanceKeeps(db: Db, i: nat, r: Announcement)
    requires Inv(db) && i in db.announcements
    requires AnnouncementEvolves(db.announcements[i], r) && AnnouncementShape(r, db.sites)
    ensures Keeps(db, db.(announcements := db.announcements[i := r]))
  {
    NoChangeKeeps(db);
    ReplaceAnnouncement(db.sites, db.announcements, i, r, db.nextAnnouncement, db.lateRejects);
  }

  lemma CollectKeeps(db: Db, i: nat, key: Secret)
    requires Inv(db) && i in db.announcements && db.announcements[i].state == Approved
    ensures db.announcements[i].site.Some? && Keeps(db, Collect(db, i, key).0)
  {
    var a := db.announcements[i];
    assert AnnouncementShape(a, db.sites);
    NoChangeKeeps(db);
    var site := a.site.value;
    AdvanceKeeps(db, i, a.(state := Rejected));
    RegisterKeeps(db, site, a.serial, key, ViaAnnouncement, ByAnnouncement(i));
    var (after, r) := Register(db, site, a.serial, key, ViaAnnouncement, ByAnnouncement(i));
    if r.Key? {
      AdvanceKeeps(db, i, a.(state := Collected, device := Some(r.device)));
    }
  }

  lemma StatusKeeps(db: Db, token: Secret, key: Secret)
    requires Inv(db)
    ensures Keeps(db, AnnouncementStatus(db, token, key).0)
  {
    NoChangeKeeps(db);
    var i := FindToken(db.announcements, token);
    if i.Some? && db.announcements[i.value].state == Approved { CollectKeeps(db, i.value, key); }
  }

  lemma LateRejectKeeps(db: Db, i: nat)
    requires Inv(db)
    ensures Keeps(db, LateReject(db, i))
  {
    NoChangeKeeps(db);
    if i in db.lateRejects {
      var settled := db.(lateRejects := db.lateRejects - {i});
      assert Keeps(db, settled);
      if i in db.announcements {
        var a := db.announcements[i];
        assert AnnouncementShape(a, db.sites);
        if a.device.None? && a.company.Some? { AdvanceKeeps(settled, i, a.(state := Rejected)); }
      }
    }
  }

  lemma RowShape(db: Db, i: nat)
    requires Inv(db) && i in db.announcements
    ensures AnnouncementShape(db.announcements[i], db.sites)
  {
  }

  lemma AdoptKeeps(db: Db, company: nat, code: Secret)
    requires Inv(db)
    ensures Keeps(db, AdoptAnnouncement(db, company, code).0)
  {
    hide Inv;
    hide Keeps;
    hide Verdict;
    NoChangeKeeps(db);
    forall i: nat | Adoptable(db.announcements, i, code, db.now)
      ensures Keeps(db, db.(announcements := db.announcements[i :=
        db.announcements[i].(state := Adopted, company := Some(company), expiresAt := db.now + ANNOUNCEMENT_TTL)]))
    {
      RowShape(db, i);
      AdvanceKeeps(db, i,
        db.announcements[i].(state := Adopted, company := Some(company), expiresAt := db.now + ANNOUNCEMENT_TTL));
    }
  }

  /** The code's row is the only one that can be adopted by it. */
  lemma AdoptsTheRow(db: Db, company: nat, code: Secret, i: nat)
    requires Inv(db) && Adoptable(db.announcements, i, code, db.now)
    ensures AdoptAnnouncement(db, company, code)
         == match Verdict(db, db.announcements[i].serial, company)
            case Some(refusal) => (db, refusal)
            case None =>
              (db.(announcements := db.announcements[i :=
                 db.announcements[i].(state := Adopted, company := Some(company), expiresAt := db.now + ANNOUNCEMENT_TTL)]),
               Done)
  {
    hide Verdict;
    forall j: nat | Adoptable(db.announcements, j, code, db.now) ensures j == i {
      assert CodeLive(db.announcements, i, code) && CodeLive(db.announcements, j, code);
    }
  }

  lemma ApproveKeeps(db: Db, company: nat, i: nat, site: nat)
    requires Inv(db)
    ensures Keeps(db, ApproveAnnouncement(db, company, i, site).0)
  {
    NoChangeKeeps(db);
    if ApproveAnnouncement(db, company, i, site).1 == Done {
      var a := db.announcements[i];
      assert AnnouncementShape(a, db.sites);
      AdvanceKeeps(db, i, a.(state := Approved, site := Some(site), approvalExpiresAt := db.now + APPROVAL_TTL));
    }
  }

  lemma RejectKeeps(db: Db, company: nat, i: nat)
    requires Inv(db)
    ensures Keeps(db, RejectAnnouncement(db, company, i).0)
  {
    NoChangeKeeps(db);
    if RejectAnnouncement(db, company, i).1 == Done {
      assert AnnouncementShape(db.announcements[i], db.sites);
      AdvanceKeeps(db, i, db.announcements[i].(state := Rejected));
    }
  }

  lemma IssueKeeps(db: Db, company: nat, site: nat, text: string, ttl: int, code: Secret)
    requires Inv(db)
    ensures Keeps(db, IssueClaimCode(db, company, site, text, ttl, code).0)
  {
    NoChangeKeeps(db);
    if IssueClaimCode(db, company, site, text, ttl, code).1 == Done {
      IssueKeepsClaims(db.sites, db.claims,
        Claim(site, company, code, TrimSpace(text), db.now + ClaimTtl(ttl), None, false), db.nextClaim);
    }
  }

  lemma RedeemKeeps(db: Db, code: Secret, serial: string, key: Secret)
    requires Inv(db)
    ensures Keeps(db, RedeemClaimCode(db, code, serial, key).0)
  {
    NoChangeKeeps(db);
    forall i: nat | Redeemable(db.claims, i, code, db.now) && SiteUsable(db.sites, db.claims[i].site)
      ensures var c := db.claims[i];
              var (after, r) := Register(db, c.site, c.serial, key, ViaClaimCode, ByClaim(i));
              r.Key? ==> Keeps(db, after.(claims := db.claims[i := c.(redeemed := Some(r.device))]))
    {
      RedeemRowKeeps(db, i, key);
    }
  }

  lemma RedeemRowKeeps(db: Db, i: nat, key: Secret)
    requires Inv(db) && i in db.claims && Open(db.claims[i])
    ensures var c := db.claims[i];
            var (after, r) := Register(db, c.site, c.serial, key, ViaClaimCode, ByClaim(i));
            r.Key? ==> Keeps(db, after.(claims := db.claims[i := c.(redeemed := Some(r.device))]))
  {
    NoChangeKeeps(db);
    var c := db.claims[i];
    assert ClaimShape(c, db.sites);
    RegisterKeeps(db, c.site, c.serial, key, ViaClaimCode, ByClaim(i));
    var (after, r) := Register(db, c.site, c.serial, key, ViaClaimCode, ByClaim(i));
    if r.Key? {
      var b := db.claims[i := c.(redeemed := Some(r.device))];
      forall j | j in b ensures ClaimEvolves(db.claims[j], b[j]) && ClaimShape(b[j], db.sites) {
        assert ClaimShape(db.claims[j], db.sites);
      }
      RewriteClaims(db.sites, db.claims, b, db.nextClaim);
    }
  }

  lemma AdministerKeeps(db: Db, i: nat, action: Admin)
    requires Inv(db)
    ensures Keeps(db, Administer(db, i, action))
  {
    NoChangeKeeps(db);
    var after := Administer(db, i, action);
    if after != db {
      var d := db.devices[i];
      assert DeviceShape(d, db.sites);
      OwnKeyIsNotTaken(db, i);
      ReplaceDevice(db.sites, db.devices, i, Administered(d, action), db.nextDevice);
      if action.FinalizeRelease? {
        VoidKeeps(db, d.serial);
      }
    }
  }

  lemma VoidKeeps(db: Db, serial: string)
    requires Inv(db)
    ensures var b := VoidInFlight(db.announcements, serial);
            AnnouncementsOk(db.sites, b, db.nextAnnouncement)
            && AnnouncementsEvolve(db.announcements, db.nextAnnouncement, b) && LateOk(b, db.nextAnnouncement, db.lateRejects)
  {
    var b := VoidInFlight(db.announcements, serial);
    forall i | i in b ensures AnnouncementEvolves(db.announcements[i], b[i]) && AnnouncementShape(b[i], db.sites) {
      assert AnnouncementShape(db.announcements[i], db.sites);
    }
    RewriteAnnouncements(db.sites, db.announcements, b, db.nextAnnouncement, db.lateRejects);
  }

  /** Changing the sites table, and the devices with it when a site is retired. */
  lemma SitesKeep(db: Db, sites: map<nat, Site>, devices: map<nat, Device>)
    requires Inv(db) && SitesEvolve(db.sites, sites) && devices.Keys == db.devices.Keys
    requires forall i | i in devices :: devices[i] == db.devices[i]
               || (!db.devices[i].deleted && devices[i] == db.devices[i].(deleted := true, active := false, status := DISABLED))
    ensures Keeps(db, db.(sites := sites, devices := devices))
  {
    forall i | i in devices
      ensures DeviceShape(devices[i], sites) && DeviceEvolves(db.sites, db.devices[i], sites, devices[i])
    {
      assert DeviceShape(db.devices[i], db.sites);
    }
    forall i | i in db.devices ensures DeviceShape(db.devices[i], sites) { assert DeviceShape(db.devices[i], db.sites); }
    forall i, key | HoldsKey(devices, i, key) ensures HoldsKey(db.devices, i, key) {}
    RewriteDevices(sites, db.devices, devices, db.nextDevice);
    forall i | i in db.announcements ensures AnnouncementShape(db.announcements[i], sites) {
      assert AnnouncementShape(db.announcements[i], db.sites);
    }
    forall i | i in db.claims ensures ClaimShape(db.claims[i], sites) { assert ClaimShape(db.claims[i], db.sites); }
  }

  lemma SiteStepKeeps(db: Db, op: Op)
    requires Inv(db) && (op.DoCreateSite? || op.DoSwitchSite?)
    ensures Keeps(db, Apply(db, op).0)
  {
    hide Inv;
    NoChangeKeeps(db);
    var after := Apply(db, op).0;
    SitesKeep(db, after.sites, db.devices);
    assert after == db.(sites := after.sites, devices := db.devices);
  }

  lemma RetireSiteKeeps(db: Db, site: nat)
    requires Inv(db)
    ensures Keeps(db, RetireSite(db, site))
  {
    hide Inv;
    NoChangeKeeps(db);
    var after := RetireSite(db, site);
    SitesKeep(db, after.sites, after.devices);
    assert after == db.(sites := after.sites, devices := after.devices);
  }

  lemma TickKeeps(db: Db, seconds: nat)
    requires Inv(db)
    ensures Keeps(db, db.(now := db.now + seconds))
  {
    NoChangeKeeps(db);
  }

  /** Every step keeps the invariant and changes only what Evolves allows. */
  lemma StepKeeps(db: Db, op: Op)
    requires Inv(db)
    ensures Keeps(db, Apply(db, op).0)
  {
    hide Keeps;
    hide Inv;
    match op
    case DoAnnounce(text, presented, code, token) => AnnounceKeeps(db, text, presented, code, token);
    case DoPoll(token, key) => StatusKeeps(db, token, key);
    case DoLateReject(i) => LateRejectKeeps(db, i);
    case DoAdopt(company, code) => AdoptKeeps(db, company, code);
    case DoApprove(company, i, site) => ApproveKeeps(db, company, i, site);
    case DoReject(company, i) => RejectKeeps(db, company, i);
    case DoExpire => ExpiryKeeps(db, None);
    case DoPurgeAnnouncements(aged) => PurgeKeeps(db, aged, 0);
    case DoPurgeClaims(days) => PurgeKeeps(db, {}, days);
    case DoIssueClaim(company, site, text, ttl, code) => IssueKeeps(db, company, site, text, ttl, code);
    case DoRedeem(code, serial, key) => RedeemKeeps(db, code, serial, key);
    case DoShowSiteKey(site) => ShowingKeeps(db, site);
    case DoRegister(site, serial, key) => RegisterDeviceKeeps(db, site, serial, key);
    case DoHeartbeat(device, status) => HeartbeatKeeps(db, device, status);
    case DoOfflineSweep(stale) => SweepKeeps(db, stale);
    case DoAdminister(i, action) => AdministerKeeps(db, i, action);
    case DoCreateSite(_, _) => SiteStepKeeps(db, op);
    case DoSwitchSite(_, _) => SiteStepKeeps(db, op);
    case DoRetireSite(id) => RetireSiteKeeps(db, id);
    case DoTick(seconds) => TickKeeps(db, seconds);
  }
}
