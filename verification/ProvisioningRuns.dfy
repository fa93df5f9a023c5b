/**
 * What holds over every run of the provisioning tables: any number of steps, in any
 * order, by any number of companies, terminals and administrators.
 */
module ProvisioningRuns {
  import opened Options
  import opened Text
  import opened Provisioning
  import opened ProvisioningInvariant

  lemma {:induction false} RunKeepsInvariant(db: Db, ops: seq<Op>, n: nat)
    requires Inv(db) && n <= |ops|
    ensures Inv(At(db, ops, n))
  {
    if n > 0 {
      RunKeepsInvariant(db, ops, n - 1);
      StepKeeps(At(db, ops, n - 1), ops[n - 1]);
    }
  }

  lemma EvolvesTransitively(a: Db, b: Db, c: Db)
    requires Inv(a) && Evolves(a, b) && Evolves(b, c)
    ensures Evolves(a, c)
  {
    AnnouncementsEvolveTransitively(a.announcements, a.nextAnnouncement, b.announcements, b.nextAnnouncement, c.announcements);
    forall i | i in a.devices ensures i in c.devices && DeviceEvolves(a.sites, a.devices[i], c.sites, c.devices[i]) {
      assert DeviceEvolves(a.sites, a.devices[i], b.sites, b.devices[i]);
      assert DeviceEvolves(b.sites, b.devices[i], c.sites, c.devices[i]);
    }
    forall i | i in a.claims && i in c.claims ensures ClaimEvolves(a.claims[i], c.claims[i]) {
      assert ClaimEvolves(a.claims[i], b.claims[i]) && ClaimEvolves(b.claims[i], c.claims[i]);
    }
  }

  lemma {:induction false} RunEvolves(db: Db, ops: seq<Op>, m: nat, n: nat)
    requires Inv(db) && m <= n <= |ops|
    ensures Evolves(At(db, ops, m), At(db, ops, n))
  {
    RunKeepsInvariant(db, ops, m);
    if m == n {
      NoChangeKeeps(At(db, ops, m));
    } else {
      RunEvolves(db, ops, m, n - 1);
      RunKeepsInvariant(db, ops, n - 1);
      StepKeeps(At(db, ops, n - 1), ops[n - 1]);
      EvolvesTransitively(At(db, ops, m), At(db, ops, n - 1), At(db, ops, n));
    }
  }

  // ---- Tenancy -------------------------------------------------------------------

  ghost function CompanyOf(db: Db, i: nat): nat
    requires Inv(db) && i in db.devices
  {
    assert DeviceShape(db.devices[i], db.sites);
    db.sites[db.devices[i].site].company
  }

  /**
   * No door changes tenant. Over any run a device row keeps its serial and its company, and
   * if a serial is live in one company and later live in another, the first row was deleted
   * in between: there is no step that hands a live terminal over.
   */
  lemma NoTerminalChangesCompany(db: Db, ops: seq<Op>, m: nat, n: nat, i: nat, j: nat, serial: string)
    requires Inv(db) && m <= n <= |ops|
    requires IsLive(At(db, ops, m).devices, i, serial)
    ensures Inv(At(db, ops, m)) && Inv(At(db, ops, n))
    ensures i in At(db, ops, n).devices && At(db, ops, n).devices[i].serial == serial
    ensures CompanyOf(At(db, ops, n), i) == CompanyOf(At(db, ops, m), i)
    ensures IsLive(At(db, ops, n).devices, j, serial)
            && CompanyOf(At(db, ops, n), j) != CompanyOf(At(db, ops, m), i)
            ==> At(db, ops, n).devices[i].deleted
  {
    RunKeepsInvariant(db, ops, m);
    RunKeepsInvariant(db, ops, n);
    RunEvolves(db, ops, m, n);
    assert DeviceEvolves(At(db, ops, m).sites, At(db, ops, m).devices[i], At(db, ops, n).sites, At(db, ops, n).devices[i]);
    if IsLive(At(db, ops, n).devices, j, serial) && !At(db, ops, n).devices[i].deleted {
      assert IsLive(At(db, ops, n).devices, i, serial);
    }
  }

  /** Steps that are not an administrator's: everything a terminal, an installer or a sweep can do. */
  predicate Unprivileged(op: Op) {
    !op.DoAdminister? && !op.DoRetireSite?
  }

  /** What an unprivileged step may do to a row: nothing, or change a row in service without moving it. */
  predicate Touched(d: Device, e: Device) {
    e == d || (!d.deleted && !OutOfService(d) && e.site == d.site)
  }

  ghost predicate Touches(db: Db, after: Db, i: nat)
    requires i in db.devices
  {
    i in after.devices && Touched(db.devices[i], after.devices[i])
  }

  lemma RegisterTouches(db: Db, site: nat, serial: string, key: Secret, source: Source, grant: Grant, i: nat)
    requires Inv(db) && i in db.devices
    ensures Touches(db, Register(db, site, serial, key, source, grant).0, i)
  {
    assert i < db.nextDevice;
  }

  lemma CollectTouches(db: Db, token: Secret, key: Secret, i: nat)
    requires Inv(db) && i in db.devices
    ensures Touches(db, AnnouncementStatus(db, token, key).0, i)
  {
    hide Register;
    hide Inv;
    var found := FindToken(db.announcements, token);
    if found.Some? && db.announcements[found.value].site.Some? {
      var a := db.announcements[found.value];
      RegisterTouches(db, a.site.value, a.serial, key, ViaAnnouncement, ByAnnouncement(found.value), i);
    }
  }

  lemma RedeemTouches(db: Db, code: Secret, serial: string, key: Secret, i: nat)
    requires Inv(db) && i in db.devices
    ensures Touches(db, RedeemClaimCode(db, code, serial, key).0, i)
  {
    hide Register;
    hide Inv;
    forall c: nat | Redeemable(db.claims, c, code, db.now)
      ensures Touches(db, Register(db, db.claims[c].site, db.claims[c].serial, key, ViaClaimCode, ByClaim(c)).0, i)
    {
      RegisterTouches(db, db.claims[c].site, db.claims[c].serial, key, ViaClaimCode, ByClaim(c), i);
    }
  }

  lemma ReportTouches(db: Db, op: Op, i: nat)
    requires Inv(db) && i in db.devices && (op.DoHeartbeat? || op.DoOfflineSweep?)
    ensures Touches(db, Apply(db, op).0, i)
  {
    assert DeviceShape(db.devices[i], db.sites);
    hide Inv;
  }

  predicate TouchesNoDevice(op: Op) {
    !op.DoPoll? && !op.DoRedeem? && !op.DoRegister? && !op.DoAdminister? && !op.DoRetireSite?
    && !op.DoHeartbeat? && !op.DoOfflineSweep?
  }

  lemma OtherStepsTouchNothing(db: Db, op: Op)
    requires TouchesNoDevice(op)
    ensures Apply(db, op).0.devices == db.devices
  {
    hide Verdict;
    hide NormalizeSerial;
    hide ExpireOverdue;
  }

  lemma StepTouches(db: Db, op: Op, i: nat)
    requires Inv(db) && i in db.devices && Unprivileged(op)
    ensures Touches(db, Apply(db, op).0, i)
  {
    if op.DoPoll? {
      CollectTouches(db, op.pollToken, op.pollKey, i);
    } else if op.DoRedeem? {
      RedeemTouches(db, op.redeemCode, op.redeemSerial, op.redeemKey, i);
    } else if op.DoRegister? {
      RegisterTouches(db, op.registerSite, op.registerSerial, op.registerKey, ViaSiteKey, BySiteKey, i);
    } else if op.DoHeartbeat? || op.DoOfflineSweep? {
      ReportTouches(db, op, i);
    } else {
      hide Apply;
      OtherStepsTouchNothing(db, op);
    }
  }

  lemma AdministerMoves(db: Db, j: nat, action: Admin, i: nat)
    requires i in db.devices
    ensures i in Administer(db, j, action).devices
    ensures Administer(db, j, action).devices[i].site != db.devices[i].site ==> action.MoveTo?
  {
  }

  lemma RetireSiteMovesNothing(db: Db, site: nat, i: nat)
    requires i in db.devices
    ensures i in RetireSite(db, site).devices && RetireSite(db, site).devices[i].site == db.devices[i].site
  {
  }

  /** Only an administrator's move changes the site of a row. */
  lemma OnlyAMoveChangesSite(db: Db, op: Op, i: nat)
    requires Inv(db) && i in db.devices
    ensures i in Apply(db, op).0.devices
    ensures Apply(db, op).0.devices[i].site != db.devices[i].site ==> op.DoAdminister? && op.action.MoveTo?
  {
    if Unprivileged(op) {
      hide Apply;
      StepTouches(db, op, i);
    } else {
      hide Inv;
      hide Administer;
      hide RetireSite;
      if op.DoAdminister? {
        AdministerMoves(db, op.administered, op.action, i);
      } else {
        RetireSiteMovesNothing(db, op.retired, i);
      }
    }
  }

  /** Over any run of unprivileged steps a device row keeps its site. */
  lemma {:induction false} SiteNeverChanges(db: Db, ops: seq<Op>, m: nat, n: nat, i: nat)
    requires Inv(db) && m <= n <= |ops| && i in At(db, ops, m).devices
    requires forall k | m <= k < n :: Unprivileged(ops[k])
    ensures i in At(db, ops, n).devices && At(db, ops, n).devices[i].site == At(db, ops, m).devices[i].site
  {
    hide Apply;
    if m < n {
      SiteNeverChanges(db, ops, m, n - 1, i);
      RunKeepsInvariant(db, ops, n - 1);
      StepTouches(At(db, ops, n - 1), ops[n - 1], i);
    }
  }

  /**
   * A terminal that is live at another site is never re-homed by a collection: no key is
   * minted and the devices table is untouched, whatever the ownership verdict said. (The
   * verdict does not see a live row whose site has been deleted.)
   */
  lemma CollectionNeverRehomes(db: Db, token: Secret, key: Secret, i: nat, d: nat)
    requires Inv(db) && HasToken(db.announcements, i, token)
    requires IsLive(db.devices, d, db.announcements[i].serial)
    requires db.announcements[i].site.Some? && db.devices[d].site != db.announcements[i].site.value
    ensures AnnouncementStatus(db, token, key).0.devices == db.devices
    ensures !AnnouncementStatus(db, token, key).1.Key?
  {
    assert HasToken(db.announcements, FindToken(db.announcements, token).value, token);
    assert FindToken(db.announcements, token) == Some(i);
    assert FindLive(db.devices, db.announcements[i].serial) == Some(d) by {
      assert IsLive(db.devices, FindLive(db.devices, db.announcements[i].serial).value, db.announcements[i].serial);
    }
  }

  const EMPTY := Db(0, map[], map[], 0, map[], 0, map[], 0, {}, {})

  lemma FourSteps(db: Db, ops: seq<Op>)
    requires |ops| >= 4
    ensures At(db, ops, 4) == Apply(Apply(Apply(Apply(db, ops[0]).0, ops[1]).0, ops[2]).0, ops[3]).0
  {
    hide Apply;
    assert At(db, ops, 3) == Apply(At(db, ops, 2), ops[2]).0;
    assert At(db, ops, 1) == Apply(db, ops[0]).0;
    assert At(db, ops, 2) == Apply(At(db, ops, 1), ops[1]).0;
  }

  /** A site's key is shown, the site is retired before the request goes on, and the terminal is registered. */
  function RegisteredLate(serial: string, company: nat): seq<Op> {
    [DoCreateSite(1, company), DoShowSiteKey(1), DoRetireSite(1), DoRegister(1, serial, 100)]
  }

  /** What that run leaves: a live row at the retired site. */
  function LateRow(serial: string, company: nat): Db {
    EMPTY.(sites := map[1 := Site(company, false, true)], admitted := {1},
           devices := map[0 := FreshDevice(1, serial, 100, ViaSiteKey)], nextDevice := 1)
  }

  lemma RegisteredLateLeaves(serial: string, company: nat)
    ensures At(EMPTY, RegisteredLate(serial, company), 4) == LateRow(serial, company)
  {
    var ops := RegisteredLate(serial, company);
    FourSteps(EMPTY, ops);
    var shown := EMPTY.(sites := map[1 := Site(company, true, false)], admitted := {1});
    var retired := shown.(sites := map[1 := Site(company, false, true)]);
    assert Apply(Apply(EMPTY, ops[0]).0, ops[1]).0 == shown;
    assert Apply(shown, ops[2]).0 == retired;
    FirstRegistration(retired, serial);
  }

  lemma FirstRegistration(db: Db, serial: string)
    requires db.devices == map[] && 1 in db.sites && 1 in db.admitted
    ensures Apply(db, DoRegister(1, serial, 100)).0
         == db.(devices := map[db.nextDevice := FreshDevice(1, serial, 100, ViaSiteKey)], nextDevice := db.nextDevice + 1)
  {
  }

  lemma VerdictMissesLateRow(serial: string, company: nat, other: nat)
    ensures IsLive(LateRow(serial, other).devices, 0, serial) && Verdict(LateRow(serial, other), serial, company) == None
  {
    var devices := LateRow(serial, other).devices;
    assert IsLive(devices, FindLive(devices, serial).value, serial) by { assert IsLive(devices, 0, serial); }
  }

  /**
   * The verdict really can miss such a row, so the last check is not redundant. A key is
   * refused once its site is retired, but a request that showed it before can still register:
   * this run leaves a live row there, for which another company is told to go ahead.
   */
  lemma VerdictMissesRowAtDeletedSite(serial: string, company: nat, other: nat)
    ensures var db := At(EMPTY, RegisteredLate(serial, other), 4);
            Inv(db) && IsLive(db.devices, 0, serial) && Verdict(db, serial, company) == None
  {
    RunKeepsInvariant(EMPTY, RegisteredLate(serial, other), 4);
    hide At;
    hide Inv;
    RegisteredLateLeaves(serial, other);
    VerdictMissesLateRow(serial, company, other);
  }

  /**
   * The branch that compares the approved site's company with the adopting company is never
   * taken: in every reachable state an approved row's site belongs to its company.
   */
  lemma ApprovedSiteBelongsToAdopter(db: Db, ops: seq<Op>, n: nat, i: nat)
    requires Inv(db) && n <= |ops|
    requires i in At(db, ops, n).announcements && At(db, ops, n).announcements[i].state == Approved
    ensures var a := At(db, ops, n).announcements[i];
            a.site.Some? && a.site.value in At(db, ops, n).sites
            && a.company == Some(At(db, ops, n).sites[a.site.value].company)
  {
    RunKeepsInvariant(db, ops, n);
    assert AnnouncementShape(At(db, ops, n).announcements[i], At(db, ops, n).sites);
  }

  // ---- Who may adopt and approve ------------------------------------------------------------

  /** A live row of the serial at a site that has not been retired. */
  ghost predicate Stands(db: Db, d: nat, serial: string) {
    && d in db.devices && !db.devices[d].deleted && db.devices[d].serial == serial
    && db.devices[d].site in db.sites && !db.sites[db.devices[d].site].deleted
  }

  /** Nothing about such a row is in a company's way: it is its own, not being released, and in service. */
  ghost predicate InNobodysWay(db: Db, d: nat, company: nat)
    requires d in db.devices && db.devices[d].site in db.sites
  {
    && db.sites[db.devices[d].site].company == company && !db.devices[d].releaseOrdered
    && db.devices[d].active && db.devices[d].status != DISABLED
  }

  ghost predicate NothingInTheWay(db: Db, serial: string, company: nat) {
    forall d :: Stands(db, d, serial) ==> InNobodysWay(db, d, company)
  }

  /** What a company is told of a serial that stands somewhere: foreign first, then released, then out of service. */
  lemma VerdictOfStanding(db: Db, serial: string, company: nat, d: nat)
    requires Inv(db) && Stands(db, d, serial)
    ensures var (v, row) := (Verdict(db, serial, company), db.devices[d]);
            var own := db.sites[row.site].company == company;
            && (v == Some(OwnedElsewhere) <==> !own)
            && (v == Some(ReleaseInProgress) <==> own && row.releaseOrdered)
            && (v == Some(DisabledLocally) <==> own && !row.releaseOrdered && (row.status == DISABLED || !row.active))
            && (v == None <==> InNobodysWay(db, d, company))
  {
    assert IsLive(db.devices, d, serial);
    assert FindLive(db.devices, serial) == Some(d) by {
      assert IsLive(db.devices, FindLive(db.devices, serial).value, serial);
    }
    hide Inv;
  }

  lemma VerdictOfNobody(db: Db, serial: string, company: nat)
    requires forall d :: !Stands(db, d, serial)
    ensures Verdict(db, serial, company) == None
  {
    var found := FindLive(db.devices, serial);
    if found.Some? { assert !Stands(db, found.value, serial); }
  }

  lemma VerdictMeans(db: Db, serial: string, company: nat)
    requires Inv(db)
    ensures Verdict(db, serial, company) == None <==> NothingInTheWay(db, serial, company)
    ensures Verdict(db, serial, company) != Some(Done) && Verdict(db, serial, company) != Some(Refused)
  {
    hide Verdict;
    hide Stands;
    hide InNobodysWay;
    hide Inv;
    if d :| Stands(db, d, serial) {
      forall e | Stands(db, e, serial) ensures e == d { StandsOnce(db, d, e, serial); }
      VerdictOfStanding(db, serial, company, d);
      StandingVerdict(db, serial, company, d);
    } else {
      VerdictOfNobody(db, serial, company);
    }
  }

  lemma StandsOnce(db: Db, d: nat, e: nat, serial: string)
    requires Inv(db) && Stands(db, d, serial) && Stands(db, e, serial)
    ensures d == e
  {
    assert IsLive(db.devices, d, serial) && IsLive(db.devices, e, serial);
  }

  lemma StandingVerdict(db: Db, serial: string, company: nat, d: nat)
    requires Inv(db) && Stands(db, d, serial)
    ensures Verdict(db, serial, company) in {None, Some(OwnedElsewhere), Some(ReleaseInProgress), Some(DisabledLocally)}
  {
    hide Inv;
  }

  /** A pending announcement under the code, still in its window. */
  ghost predicate Offered(db: Db, i: nat, code: Secret) {
    i in db.announcements && db.announcements[i].code == code && db.announcements[i].state == Pending
    && db.announcements[i].expiresAt > db.now
  }

  /**
   * Adopting, in full. Without an offer under the code it is refused. With one, the company is
   * told who is in the way, in that order, and adopts exactly when nobody is: the row, and
   * nothing else, becomes its own for another window. A refusal changes nothing.
   */
  lemma AdoptionInFull(db: Db, company: nat, code: Secret)
    requires Inv(db)
    ensures var (after, r) := AdoptAnnouncement(db, company, code);
            && (r == Refused <==> forall i :: !Offered(db, i, code))
            && (r != Done ==> after == db)
            && forall i | Offered(db, i, code) ::
                 var a := db.announcements[i];
                 && (r == Done <==> NothingInTheWay(db, a.serial, company))
                 && (r == Done ==> after == db.(announcements := db.announcements[i :=
                       a.(state := Adopted, company := Some(company), expiresAt := db.now + 15 * 60)]))
                 && forall d | Stands(db, d, a.serial) ::
                      var own := db.sites[db.devices[d].site].company == company;
                      && (!own ==> r == OwnedElsewhere)
                      && (own && db.devices[d].releaseOrdered ==> r == ReleaseInProgress)
                      && (own && !db.devices[d].releaseOrdered && (db.devices[d].status == DISABLED || !db.devices[d].active) ==>
                            r == DisabledLocally)
  {
    if i :| Offered(db, i, code) {
      assert Adoptable(db.announcements, i, code, db.now);
      AdoptsTheRow(db, company, code, i);
      forall j | Offered(db, j, code) ensures j == i {
        assert CodeLive(db.announcements, i, code) && CodeLive(db.announcements, j, code);
      }
      var serial := db.announcements[i].serial;
      hide AdoptAnnouncement;
      hide Verdict;
      hide Inv;
      VerdictMeans(db, serial, company);
      hide NothingInTheWay;
      hide Stands;
      forall d | Stands(db, d, serial)
        ensures d in db.devices && db.devices[d].site in db.sites
        ensures var (v, row) := (Verdict(db, serial, company), db.devices[d]);
                var own := db.sites[row.site].company == company;
                && (v == Some(OwnedElsewhere) <==> !own)
                && (v == Some(ReleaseInProgress) <==> own && row.releaseOrdered)
                && (v == Some(DisabledLocally) <==> own && !row.releaseOrdered && (row.status == DISABLED || !row.active))
      {
        VerdictOfStanding(db, serial, company, d);
        StandsSomewhere(db, d, serial);
      }
    } else {
      assert forall i: nat :: Adoptable(db.announcements, i, code, db.now) ==> Offered(db, i, code);
    }
  }

  lemma StandsSomewhere(db: Db, d: nat, serial: string)
    requires Stands(db, d, serial)
    ensures d in db.devices && db.devices[d].site in db.sites
  {
  }

  /** A row the company has adopted, still in its window, and a site of its own that is in use. */
  ghost predicate MayBePlaced(db: Db, company: nat, i: nat, site: nat) {
    && i in db.announcements && db.announcements[i].company == Some(company) && db.announcements[i].state == Adopted
    && db.announcements[i].expiresAt > db.now
    && site in db.sites && !db.sites[site].deleted && db.sites[site].active && db.sites[site].company == company
  }

  /** Approving, in full: the same, for a row the company has adopted and one of its own sites in use. */
  lemma ApprovalInFull(db: Db, company: nat, i: nat, site: nat)
    requires Inv(db)
    ensures var (after, r) := ApproveAnnouncement(db, company, i, site);
            && (r == Refused <==> !MayBePlaced(db, company, i, site))
            && (r != Done ==> after == db)
            && (MayBePlaced(db, company, i, site) ==>
                  var a := db.announcements[i];
                  && (r == Done <==> NothingInTheWay(db, a.serial, company))
                  && (r == Done ==> after == db.(announcements := db.announcements[i :=
                        a.(state := Approved, site := Some(site), approvalExpiresAt := db.now + 24 * 60 * 60)]))
                  && forall d | Stands(db, d, a.serial) ::
                       var own := db.sites[db.devices[d].site].company == company;
                       && (!own ==> r == OwnedElsewhere)
                       && (own && db.devices[d].releaseOrdered ==> r == ReleaseInProgress)
                       && (own && !db.devices[d].releaseOrdered && (db.devices[d].status == DISABLED || !db.devices[d].active) ==>
                             r == DisabledLocally))
  {
    hide Inv;
    hide Verdict;
    if MayBePlaced(db, company, i, site) {
      var serial := db.announcements[i].serial;
      VerdictMeans(db, serial, company);
      hide NothingInTheWay;
      hide Stands;
      forall d | Stands(db, d, serial)
        ensures d in db.devices && db.devices[d].site in db.sites
        ensures var (v, row) := (Verdict(db, serial, company), db.devices[d]);
                var own := db.sites[row.site].company == company;
                && (v == Some(OwnedElsewhere) <==> !own)
                && (v == Some(ReleaseInProgress) <==> own && row.releaseOrdered)
                && (v == Some(DisabledLocally) <==> own && !row.releaseOrdered && (row.status == DISABLED || !row.active))
      {
        VerdictOfStanding(db, serial, company, d);
        StandsSomewhere(db, d, serial);
      }
    }
  }

  /** Company 8 has the code of company 7's live terminal: it is told so, and nothing changes. */
  lemma ForeignTerminalIsNotAdopted(serial: string)
    ensures var db := Db(0, map[1 := Site(7, true, false)], map[0 := FreshDevice(1, serial, 100, ViaSiteKey)], 1,
                         map[0 := Announcement(serial, 5, 6, Pending, None, None, None, 900, 0)], 1, map[], 0, {}, {});
            Inv(db) && AdoptAnnouncement(db, 8, 5) == (db, OwnedElsewhere)
  {
    var db := Db(0, map[1 := Site(7, true, false)], map[0 := FreshDevice(1, serial, 100, ViaSiteKey)], 1,
                 map[0 := Announcement(serial, 5, 6, Pending, None, None, None, 900, 0)], 1, map[], 0, {}, {});
    assert Offered(db, 0, 5) && Stands(db, 0, serial);
    AdoptionInFull(db, 8, 5);
    hide AdoptAnnouncement;
  }

  // ---- One key per approval, one key per code ----------------------------------------

  /** What minting a key has done, by the record that authorised it. */
  ghost predicate Minted(db: Db, after: Db, r: Response)
    requires r.Key?
  {
    && HoldsKey(after.devices, r.device, r.key)
    && var d := after.devices[r.device];
       match r.grant
       case BySiteKey => d.site in db.admitted
       case ByAnnouncement(i) =>
         && i in db.announcements && db.announcements[i].state == Approved
         && db.now < db.announcements[i].approvalExpiresAt
         && i in after.announcements && after.announcements[i].state == Collected
         && db.announcements[i].site == Some(d.site) && db.announcements[i].serial == d.serial
       case ByClaim(i) =>
         && i in db.claims && Open(db.claims[i]) && db.now < db.claims[i].expiresAt
         && i in after.claims && after.claims[i].redeemed == Some(r.device)
         && db.claims[i].site == d.site && db.claims[i].serial == d.serial
  }

  /**
   * A key is only ever minted by a site key, by an unexpired approved announcement for its own
   * serial and site, or by an unexpired open code for its own serial and site; the record is
   * spent by the same step.
   */
  lemma EveryKeyIsMintedByItsGrant(db: Db, op: Op)
    requires Inv(db) && Apply(db, op).1.Key?
    ensures Minted(db, Apply(db, op).0, Apply(db, op).1)
  {
    match op
    case DoRegister(site, serial, key) =>
      RegisterKeeps(db, site, serial, key, ViaSiteKey, BySiteKey);
    case DoPoll(token, key) => CollectedKey(db, token, key);
    case DoRedeem(code, serial, key) => RedeemedKey(db, code, serial, key);
    case _ =>
  }

  /** A site was usable when its key was shown: a registration behind a retirement was admitted before it. */
  lemma {:induction false} AdmittedWhileUsable(db: Db, ops: seq<Op>, n: nat, site: nat)
    requires n <= |ops| && site in At(db, ops, n).admitted && site !in db.admitted
    ensures exists k | 0 <= k < n :: ops[k] == DoShowSiteKey(site) && SiteUsable(At(db, ops, k).sites, site)
  {
    hide Apply;
    if site in At(db, ops, n - 1).admitted {
      AdmittedWhileUsable(db, ops, n - 1, site);
    } else {
      OnlyShowingAdmits(At(db, ops, n - 1), ops[n - 1], site);
    }
  }

  lemma CollectedKey(db: Db, token: Secret, key: Secret)
    requires Inv(db) && AnnouncementStatus(db, token, key).1.Key?
    ensures Minted(db, AnnouncementStatus(db, token, key).0, AnnouncementStatus(db, token, key).1)
  {
    var i := FindToken(db.announcements, token).value;
    var a := db.announcements[i];
    RegisterKeeps(db, a.site.value, a.serial, key, ViaAnnouncement, ByAnnouncement(i));
  }

  /** One letter in two cases, as ASCII and the two runes that fold into it have them. */
  predicate SameLetter(a: char, b: char) {
    || a == b
    || ('A' <= a <= 'Z' && b as int == a as int + 32) || ('A' <= b <= 'Z' && a as int == b as int + 32)
    || (a in "kK\U{212A}" && b in "kK\U{212A}") || (a in "sS\U{17F}" && b in "sS\U{17F}")
  }

  predicate SameSerial(a: string, b: string) {
    |a| == |b| && forall i :: 0 <= i < |a| ==> SameLetter(a[i], b[i])
  }

  lemma FoldMeans(a: string, b: string)
    ensures EqualFold(a, b) <==> SameSerial(a, b)
  {
    forall c: char, d: char ensures FoldChar(c) == FoldChar(d) <==> SameLetter(c, d) { LetterFolds(c, d); }
    hide FoldChar;
    hide SameLetter;
  }

  lemma LetterFolds(c: char, d: char)
    ensures FoldChar(c) == FoldChar(d) <==> SameLetter(c, d)
  {
    assert forall x: char :: x in "kK\U{212A}" <==> x == 'k' || x == 'K' || x == '\U{212A}';
    assert forall x: char :: x in "sS\U{17F}" <==> x == 's' || x == 'S' || x == '\U{17F}';
  }

  /** A code is redeemed only by the serial it was issued for, up to letter case. */
  lemma RedeemedKey(db: Db, code: Secret, serial: string, key: Secret)
    requires Inv(db) && RedeemClaimCode(db, code, serial, key).1.Key?
    ensures var (after, r) := RedeemClaimCode(db, code, serial, key);
            Minted(db, after, r) && r.grant.ByClaim? && db.claims[r.grant.claim].code == code
            && SameSerial(db.claims[r.grant.claim].serial, TrimSpace(serial))
  {
    forall c: Claim ensures EqualFold(c.serial, TrimSpace(serial)) <==> SameSerial(c.serial, TrimSpace(serial)) {
      FoldMeans(c.serial, TrimSpace(serial));
    }
    hide EqualFold;
    hide SameSerial;
    forall i: nat | Redeemable(db.claims, i, code, db.now) && SiteUsable(db.sites, db.claims[i].site)
      ensures var c := db.claims[i];
              var (after, r) := Register(db, c.site, c.serial, key, ViaClaimCode, ByClaim(i));
              r.Key? ==> r == Key(r.device, key, ByClaim(i))
                         && Minted(db, after.(claims := db.claims[i := c.(redeemed := Some(r.device))]), r)
    {
      RegisterKeeps(db, db.claims[i].site, db.claims[i].serial, key, ViaClaimCode, ByClaim(i));
    }
  }

  /**
   * The state of an announcement never moves backwards, split rejections included, and a row
   * that is gone was purged in a final state.
   */
  lemma RankNeverDecreases(db: Db, ops: seq<Op>, m: nat, n: nat, i: nat)
    requires Inv(db) && m <= n <= |ops| && i in At(db, ops, m).announcements
    ensures i in At(db, ops, n).announcements ==>
              && Rank(At(db, ops, m).announcements[i].state) <= Rank(At(db, ops, n).announcements[i].state)
              && (At(db, ops, m).announcements[i].state == Collected ==> At(db, ops, n).announcements[i].state == Collected)
    ensures i !in At(db, ops, n).announcements ==>
              exists k | m <= k < n :: ops[k].DoPurgeAnnouncements? && i in At(db, ops, k).announcements
                                       && Final(At(db, ops, k).announcements[i].state)
  {
    RunEvolves(db, ops, m, n);
    if i in At(db, ops, n).announcements {
      assert AnnouncementEvolves(At(db, ops, m).announcements[i], At(db, ops, n).announcements[i]);
    } else {
      PurgedWhenFinal(db, ops, m, n, i);
    }
  }

  lemma {:induction false} PurgedWhenFinal(db: Db, ops: seq<Op>, m: nat, n: nat, i: nat)
    requires m <= n <= |ops| && i in At(db, ops, m).announcements && i !in At(db, ops, n).announcements
    ensures exists k | m <= k < n :: ops[k].DoPurgeAnnouncements? && i in At(db, ops, k).announcements
                                     && Final(At(db, ops, k).announcements[i].state)
  {
    hide Apply;
    if i in At(db, ops, n - 1).announcements {
      OnlyPurgesRemove(At(db, ops, n - 1), ops[n - 1], i);
    } else {
      PurgedWhenFinal(db, ops, m, n - 1, i);
    }
  }

  lemma RegisterLeavesAnnouncements(db: Db, site: nat, serial: string, key: Secret, source: Source, grant: Grant)
    ensures Register(db, site, serial, key, source, grant).0.announcements == db.announcements
  {
  }

  lemma RedeemLeavesAnnouncements(db: Db, code: Secret, serial: string, key: Secret)
    ensures RedeemClaimCode(db, code, serial, key).0.announcements == db.announcements
  {
    hide Register;
    hide EqualFold;
    forall c: nat | Redeemable(db.claims, c, code, db.now)
      ensures Register(db, db.claims[c].site, db.claims[c].serial, key, ViaClaimCode, ByClaim(c)).0.announcements == db.announcements
    {
      RegisterLeavesAnnouncements(db, db.claims[c].site, db.claims[c].serial, key, ViaClaimCode, ByClaim(c));
    }
  }

  lemma PollLeavesRows(db: Db, token: Secret, key: Secret)
    ensures AnnouncementStatus(db, token, key).0.announcements.Keys == db.announcements.Keys
  {
    hide Register;
  }

  lemma AnnounceLeavesRows(db: Db, text: string, presented: Option<Secret>, code: Secret, token: Secret)
    ensures db.announcements.Keys <= Announce(db, text, presented, code, token).0.announcements.Keys
  {
    hide NormalizeSerial;
    hide TokenTaken;
    hide CodeTaken;
  }

  lemma OnlyShowingAdmits(db: Db, op: Op, site: nat)
    requires site in Apply(db, op).0.admitted && site !in db.admitted
    ensures op == DoShowSiteKey(site) && SiteUsable(db.sites, site)
  {
    hide Announce;
    hide AnnouncementStatus;
    hide Verdict;
    hide TrimSpace;
    hide RedeemClaimCode;
    hide Register;
    match op
    case DoRegister(s, serial, key) => RegisterAdmitsNothing(db, s, serial, key, ViaSiteKey, BySiteKey);
    case DoRedeem(code, serial, key) => RedeemAdmitsNothing(db, code, serial, key);
    case DoPoll(token, key) => PollAdmitsNothing(db, token, key);
    case DoAnnounce(text, presented, code, token) => AnnounceAdmitsNothing(db, text, presented, code, token);
    case _ =>
  }

  lemma RegisterAdmitsNothing(db: Db, site: nat, serial: string, key: Secret, source: Source, grant: Grant)
    ensures Register(db, site, serial, key, source, grant).0.admitted == db.admitted
  {
  }

  lemma RedeemAdmitsNothing(db: Db, code: Secret, serial: string, key: Secret)
    ensures RedeemClaimCode(db, code, serial, key).0.admitted == db.admitted
  {
    hide Register;
    hide EqualFold;
    forall c: nat | Redeemable(db.claims, c, code, db.now)
      ensures Register(db, db.claims[c].site, db.claims[c].serial, key, ViaClaimCode, ByClaim(c)).0.admitted == db.admitted
    {
      RegisterAdmitsNothing(db, db.claims[c].site, db.claims[c].serial, key, ViaClaimCode, ByClaim(c));
    }
  }

  lemma PollAdmitsNothing(db: Db, token: Secret, key: Secret)
    ensures AnnouncementStatus(db, token, key).0.admitted == db.admitted
  {
    hide Register;
    var found := FindToken(db.announcements, token);
    if found.Some? && db.announcements[found.value].site.Some? {
      var a := db.announcements[found.value];
      RegisterAdmitsNothing(db, a.site.value, a.serial, key, ViaAnnouncement, ByAnnouncement(found.value));
    }
  }

  lemma AnnounceAdmitsNothing(db: Db, text: string, presented: Option<Secret>, code: Secret, token: Secret)
    ensures Announce(db, text, presented, code, token).0.admitted == db.admitted
  {
    hide NormalizeSerial;
    hide TokenTaken;
    hide CodeTaken;
  }

  lemma OnlyPurgesRemove(db: Db, op: Op, i: nat)
    requires i in db.announcements && i !in Apply(db, op).0.announcements
    ensures op.DoPurgeAnnouncements? && Final(db.announcements[i].state)
  {
    hide Announce;
    hide AnnouncementStatus;
    hide Verdict;
    hide TrimSpace;
    hide RedeemClaimCode;
    hide Register;
    match op
    case DoRegister(site, serial, key) => RegisterLeavesAnnouncements(db, site, serial, key, ViaSiteKey, BySiteKey);
    case DoRedeem(code, serial, key) => RedeemLeavesAnnouncements(db, code, serial, key);
    case DoPoll(token, key) => PollLeavesRows(db, token, key);
    case DoAnnounce(text, presented, code, token) => AnnounceLeavesRows(db, text, presented, code, token);
    case _ =>
  }

  /** No approval issues two keys and no claim code issues two keys, in any run. */
  lemma EachGrantMintsOneKey(db: Db, ops: seq<Op>, m: nat, n: nat)
    requires Inv(db) && m < n < |ops|
    requires Answer(db, ops, m).Key? && Answer(db, ops, n).Key?
    requires !Answer(db, ops, m).grant.BySiteKey?
    ensures Answer(db, ops, m).grant != Answer(db, ops, n).grant
  {
    hide Apply;
    RunKeepsInvariant(db, ops, m);
    RunKeepsInvariant(db, ops, n);
    EveryKeyIsMintedByItsGrant(At(db, ops, m), ops[m]);
    EveryKeyIsMintedByItsGrant(At(db, ops, n), ops[n]);
    RunEvolves(db, ops, m + 1, n);
    SpentStaysSpent(At(db, ops, m), At(db, ops, m + 1), Answer(db, ops, m),
                    At(db, ops, n), At(db, ops, n + 1), Answer(db, ops, n));
  }

  lemma SpentStaysSpent(a: Db, b: Db, r: Response, c: Db, d: Db, s: Response)
    requires r.Key? && s.Key? && Minted(a, b, r) && Minted(c, d, s) && Evolves(b, c)
    requires !r.grant.BySiteKey?
    ensures r.grant != s.grant
  {
    match r.grant
    case ByAnnouncement(i) => assert i in c.announcements ==> AnnouncementEvolves(b.announcements[i], c.announcements[i]);
    case ByClaim(i) => assert i in c.claims ==> ClaimEvolves(b.claims[i], c.claims[i]);
  }

  /** An announcement that is final, or has been purged, mints nothing in any later run. */
  lemma FinalMintsNothing(db: Db, ops: seq<Op>, m: nat, n: nat, i: nat)
    requires Inv(db) && m <= n < |ops| && i < At(db, ops, m).nextAnnouncement
    requires i in At(db, ops, m).announcements ==> Final(At(db, ops, m).announcements[i].state)
    requires Answer(db, ops, n).Key?
    ensures Answer(db, ops, n).grant != ByAnnouncement(i)
  {
    hide Apply;
    RunKeepsInvariant(db, ops, n);
    EveryKeyIsMintedByItsGrant(At(db, ops, n), ops[n]);
    RunEvolves(db, ops, m, n);
    if i in At(db, ops, m).announcements && i in At(db, ops, n).announcements {
      assert AnnouncementEvolves(At(db, ops, m).announcements[i], At(db, ops, n).announcements[i]);
    }
  }

  lemma StepIs(db: Db, ops: seq<Op>, m: nat)
    requires m < |ops|
    ensures At(db, ops, m + 1) == Apply(At(db, ops, m), ops[m]).0
    ensures Answer(db, ops, m) == Apply(At(db, ops, m), ops[m]).1
  {
    hide Apply;
  }

  lemma RejectIs(db: Db, company: nat, i: nat)
    ensures Apply(db, DoReject(company, i)) == RejectAnnouncement(db, company, i)
  {
  }

  lemma LateRejectIs(db: Db, i: nat)
    ensures Apply(db, DoLateReject(i)).0 == LateReject(db, i)
  {
  }

  lemma RejectedIsFinal(db: Db, company: nat, i: nat)
    requires Inv(db) && RejectAnnouncement(db, company, i).1 == Done
    ensures var after := RejectAnnouncement(db, company, i).0;
            i < after.nextAnnouncement && i in after.announcements && Final(after.announcements[i].state)
  {
  }

  /** Once an operator has rejected an announcement, no later step of any run mints a key under it. */
  lemma RejectedMintsNothing(db: Db, ops: seq<Op>, m: nat, n: nat)
    requires Inv(db) && m < n < |ops| && ops[m].DoReject? && Answer(db, ops, m) == Done
    requires Answer(db, ops, n).Key?
    ensures Answer(db, ops, n).grant != ByAnnouncement(ops[m].rejected)
  {
    hide *;
    RejectIs(At(db, ops, m), ops[m].rejecter, ops[m].rejected);
    RunKeepsInvariant(db, ops, m);
    StepIs(db, ops, m);
    RejectedIsFinal(At(db, ops, m), ops[m].rejecter, ops[m].rejected);
    FinalMintsNothing(db, ops, m + 1, n, ops[m].rejected);
  }

  /** A rejection that was split off leaves the row final: rejected exactly unless it was collected in between. */
  lemma LateRejectionIsFinal(db: Db, i: nat)
    requires Inv(db) && i in db.lateRejects
    ensures var after := LateReject(db, i);
            && i < after.nextAnnouncement && i !in after.lateRejects
            && (i in after.announcements <==> i in db.announcements)
            && (i in after.announcements ==>
                  Final(after.announcements[i].state)
                  && (after.announcements[i].state == Rejected <==> db.announcements[i].state != Collected))
  {
    if i in db.announcements { assert AnnouncementShape(db.announcements[i], db.sites); }
  }

  /** Once it has run, no later step of any run mints a key under the announcement. */
  lemma LateRejectedMintsNothing(db: Db, ops: seq<Op>, m: nat, n: nat)
    requires Inv(db) && m < n < |ops| && ops[m].DoLateReject? && ops[m].late in At(db, ops, m).lateRejects
    requires Answer(db, ops, n).Key?
    ensures Answer(db, ops, n).grant != ByAnnouncement(ops[m].late)
  {
    hide *;
    RunKeepsInvariant(db, ops, m);
    LateRejectionIsFinal(At(db, ops, m), ops[m].late);
    StepIs(db, ops, m);
    LateRejectIs(At(db, ops, m), ops[m].late);
    FinalMintsNothing(db, ops, m + 1, n, ops[m].late);
  }

  // ---- Out of service --------------------------------------------------------------

  /**
   * A terminal that is disabled, inactive or retired keeps its whole row -- status, flag and
   * key -- through any run of registrations, claims, collections, heartbeats and sweeps.
   */
  lemma {:induction false} OutOfServiceStaysOut(db: Db, ops: seq<Op>, m: nat, n: nat, i: nat)
    requires Inv(db) && m <= n <= |ops|
    requires forall k | m <= k < n :: Unprivileged(ops[k])
    requires i in At(db, ops, m).devices
    requires At(db, ops, m).devices[i].deleted || OutOfService(At(db, ops, m).devices[i])
    ensures i in At(db, ops, n).devices && At(db, ops, n).devices[i] == At(db, ops, m).devices[i]
  {
    hide Apply;
    if m < n {
      OutOfServiceStaysOut(db, ops, m, n - 1, i);
      RunKeepsInvariant(db, ops, n - 1);
      StepTouches(At(db, ops, n - 1), ops[n - 1], i);
    }
  }

  /**
   * The heartbeat alone does not protect a row that is inactive without being DISABLED: it
   * keeps the status exactly when the row is DISABLED or already reads what was reported.
   * The invariant is what rules such a row out.
   */
  lemma HeartbeatKeepsStatusIff(db: Db, i: nat, reported: Status)
    requires i in db.devices && !db.devices[i].deleted
    ensures RecordHeartbeat(db, i, reported).devices[i].status == db.devices[i].status <==>
            (db.devices[i].status == DISABLED || db.devices[i].status == Reported(reported))
    ensures Inv(db) && OutOfService(db.devices[i]) ==> db.devices[i].status == DISABLED
  {
    if Inv(db) { assert DeviceShape(db.devices[i], db.sites); }
  }

  /** A step in which a terminal is not heard: no heartbeat of its own, no key for it, no administrator. */
  ghost predicate Quiet(db: Db, op: Op, i: nat) {
    Unprivileged(op) && !(op.DoHeartbeat? && op.beating == i) && !(Apply(db, op).1.Key? && Apply(db, op).1.device == i)
  }

  lemma RegisterWithoutKey(db: Db, site: nat, serial: string, key: Secret, source: Source, grant: Grant, i: nat)
    requires Inv(db) && i in db.devices
    ensures var (after, r) := Register(db, site, serial, key, source, grant);
            (r.Key? ==> r.grant == grant) && ((r.Key? && r.device == i) || (i in after.devices && after.devices[i] == db.devices[i]))
  {
    assert i < db.nextDevice;
  }

  lemma QuietPoll(db: Db, token: Secret, key: Secret, i: nat)
    requires Inv(db) && i in db.devices
    ensures var (after, r) := AnnouncementStatus(db, token, key);
            (r.Key? && r.device == i) || (i in after.devices && after.devices[i] == db.devices[i])
  {
    hide Register;
    hide Inv;
    var found := FindToken(db.announcements, token);
    if found.Some? && db.announcements[found.value].site.Some? {
      var a := db.announcements[found.value];
      RegisterWithoutKey(db, a.site.value, a.serial, key, ViaAnnouncement, ByAnnouncement(found.value), i);
    }
  }

  lemma QuietRedeem(db: Db, code: Secret, serial: string, key: Secret, i: nat)
    requires Inv(db) && i in db.devices
    ensures var (after, r) := RedeemClaimCode(db, code, serial, key);
            (r.Key? && r.device == i) || (i in after.devices && after.devices[i] == db.devices[i])
  {
    hide Register;
    hide Inv;
    forall c: nat | Redeemable(db.claims, c, code, db.now)
      ensures var (after, r) := Register(db, db.claims[c].site, db.claims[c].serial, key, ViaClaimCode, ByClaim(c));
              (r.Key? && r.device == i) || (i in after.devices && after.devices[i] == db.devices[i])
    {
      RegisterWithoutKey(db, db.claims[c].site, db.claims[c].serial, key, ViaClaimCode, ByClaim(c), i);
    }
  }

  lemma QuietStep(db: Db, op: Op, i: nat)
    requires Inv(db) && i in db.devices && db.devices[i].status != ONLINE && Quiet(db, op, i)
    ensures i in Apply(db, op).0.devices && Apply(db, op).0.devices[i] == db.devices[i]
  {
    if op.DoPoll? {
      QuietPoll(db, op.pollToken, op.pollKey, i);
    } else if op.DoRedeem? {
      QuietRedeem(db, op.redeemCode, op.redeemSerial, op.redeemKey, i);
    } else if op.DoRegister? {
      RegisterWithoutKey(db, op.registerSite, op.registerSerial, op.registerKey, ViaSiteKey, BySiteKey, i);
    } else if !op.DoHeartbeat? && !op.DoOfflineSweep? {
      OtherStepsTouchNothing(db, op);
    }
  }

  lemma {:induction false} QuietRun(db: Db, ops: seq<Op>, m: nat, n: nat, i: nat)
    requires Inv(db) && m <= n <= |ops| && i in At(db, ops, m).devices && At(db, ops, m).devices[i].status != ONLINE
    requires forall k | m <= k < n :: Quiet(At(db, ops, k), ops[k], i)
    ensures i in At(db, ops, n).devices && At(db, ops, n).devices[i] == At(db, ops, m).devices[i]
  {
    hide Apply;
    hide Quiet;
    if m < n {
      QuietRun(db, ops, m, n - 1, i);
      RunKeepsInvariant(db, ops, n - 1);
      QuietStep(At(db, ops, n - 1), ops[n - 1], i);
    }
  }

  lemma SweepMarks(db: Db, op: Op, i: nat)
    requires op.DoOfflineSweep? && i in op.stale && i in db.devices && !db.devices[i].deleted && db.devices[i].status == ONLINE
    ensures i in Apply(db, op).0.devices && Apply(db, op).0.devices[i] == db.devices[i].(status := OFFLINE)
  {
  }

  /**
   * A terminal the sweep finds silent reads OFFLINE, with the rest of its row as it was,
   * through any run in which it is not heard.
   */
  lemma SweptReadsOffline(db: Db, ops: seq<Op>, m: nat, n: nat, i: nat)
    requires Inv(db) && m < n <= |ops| && ops[m].DoOfflineSweep? && i in ops[m].stale
    requires i in At(db, ops, m).devices && !At(db, ops, m).devices[i].deleted && At(db, ops, m).devices[i].status == ONLINE
    requires forall k | m < k < n :: Quiet(At(db, ops, k), ops[k], i)
    ensures i in At(db, ops, n).devices && At(db, ops, n).devices[i] == At(db, ops, m).devices[i].(status := OFFLINE)
  {
    hide Apply;
    hide Quiet;
    hide Inv;
    SweepMarks(At(db, ops, m), ops[m], i);
    assert At(db, ops, m + 1) == Apply(At(db, ops, m), ops[m]).0;
    QuietRun(db, ops, m + 1, n, i);
  }

  /** A recorded revocation means there is no key left to authenticate with, in every reachable state. */
  lemma RevokedHoldsNoKey(db: Db, ops: seq<Op>, n: nat, i: nat)
    requires Inv(db) && n <= |ops| && i in At(db, ops, n).devices
    ensures At(db, ops, n).devices[i].revoked ==> At(db, ops, n).devices[i].key == None
  {
    RunKeepsInvariant(db, ops, n);
    assert DeviceShape(At(db, ops, n).devices[i], At(db, ops, n).sites);
  }

  /** A terminal is registered, retired and registered again at one site. */
  function ReRegistered(serial: string, company: nat): seq<Op> {
    [DoCreateSite(1, company), DoShowSiteKey(1), DoRegister(1, serial, 100), DoAdminister(0, Retire), DoRegister(1, serial, 200)]
  }

  /** The retired row stays, so the site has two rows of one serial. */
  lemma ReRegisteredLeavesTwoRows(serial: string, company: nat)
    ensures var db := At(EMPTY, ReRegistered(serial, company), 5);
            && db.sites == map[1 := Site(company, true, false)]
            && 0 in db.devices && db.devices[0].serial == serial && db.devices[0].site == 1 && db.devices[0].deleted
            && 1 in db.devices && db.devices[1].serial == serial && db.devices[1].site == 1 && !db.devices[1].deleted
  {
    var ops := ReRegistered(serial, company);
    var founded := EMPTY.(sites := map[1 := Site(company, true, false)], admitted := {1});
    var first := FreshDevice(1, serial, 100, ViaSiteKey);
    var registered := founded.(devices := map[0 := first], nextDevice := 1);
    var retired := registered.(devices := map[0 := Administered(first, Retire)]);
    FourSteps(EMPTY, ops);
    assert Apply(Apply(EMPTY, ops[0]).0, ops[1]).0 == founded;
    FirstRegistration(founded, serial);
    RetiresTheRow(registered, first);
    hide Apply;
    assert At(EMPTY, ops, 5) == Apply(retired, ops[4]).0;
    SecondRegistration(retired, serial);
  }

  lemma RetiresTheRow(db: Db, d: Device)
    requires db.devices == map[0 := d] && d.site in db.sites && !db.sites[d.site].deleted && !d.deleted
    ensures Apply(db, DoAdminister(0, Retire)).0 == db.(devices := map[0 := Administered(d, Retire)])
  {
  }

  lemma SecondRegistration(db: Db, serial: string)
    requires db.devices.Keys == {0} && db.devices[0].deleted && db.nextDevice == 1 && 1 in db.sites && 1 in db.admitted
    ensures Apply(db, DoRegister(1, serial, 200)).0
         == db.(devices := db.devices[1 := FreshDevice(1, serial, 200, ViaSiteKey)], nextDevice := 2)
  {
  }

  // ---- Announcing ------------------------------------------------------------------

  /** At most one announcement in flight per serial, so the insert never meets an occupied slot. */
  lemma OneAnnouncementInFlight(db: Db, ops: seq<Op>, n: nat, i: nat, j: nat, serial: string)
    requires Inv(db) && n <= |ops|
    requires IsSlot(At(db, ops, n).announcements, i, serial) && IsSlot(At(db, ops, n).announcements, j, serial)
    ensures i == j
  {
    RunKeepsInvariant(db, ops, n);
  }

  /**
   * Announcing again with the row's own token, or against a row an operator has already
   * adopted or approved, answers with that row and changes no row of its serial; with
   * neither, a PENDING row gives way to a new one.
   */
  lemma ReannouncingChangesNothing(db: Db, text: string, presented: Option<Secret>, code: Secret, token: Secret, i: nat)
    requires Inv(db) && NormalizeSerial(text).Some?
    requires IsSlot(db.announcements, i, NormalizeSerial(text).value) && !Overdue(db.announcements[i], db.now)
    ensures var (after, r) := Announce(db, text, presented, code, token);
            var mine := presented == Some(db.announcements[i].token) || db.announcements[i].state != Pending;
            && (mine ==> after == db && r == Announced(i, true, db.announcements[i].state))
            && (!mine && r != SecretCollision ==>
                  r == Announced(db.nextAnnouncement, false, Pending) && after.announcements[i].state == Superseded)
  {
    var serial := NormalizeSerial(text).value;
    var anns := ExpireOverdue(db.announcements, db.now, Some(serial));
    forall j | j in anns ensures anns[j] == db.announcements[j] {
      assert IsSlot(db.announcements, j, serial) ==> j == i;
    }
    assert anns == db.announcements;
    assert FindSlot(anns, serial) == Some(i) by { assert IsSlot(anns, FindSlot(anns, serial).value, serial); }
  }

  // ---- Claim codes ---------------------------------------------------------------

  /**
   * Issuing a code closes every earlier code for the same serial at the same site, and only
   * those: a serial can have one open code at each of several sites.
   */
  lemma IssuingSupersedesPerSite(db: Db, company: nat, site: nat, text: string, ttl: int, code: Secret, i: nat)
    requires Inv(db) && i in db.claims
    requires IssueClaimCode(db, company, site, text, ttl, code).1 == Done
    ensures var after := IssueClaimCode(db, company, site, text, ttl, code).0;
            i in after.claims && IsOpen(after.claims, db.nextClaim, site, TrimSpace(text))
            && (Open(after.claims[i]) <==>
                  Open(db.claims[i]) && !(db.claims[i].site == site && db.claims[i].serial == TrimSpace(text)))
  {
    assert i != db.nextClaim;
  }

  lemma ShortSerial()
    ensures ByteLength("AT-1") <= MAX_SERIAL_LENGTH
  {
    assert "AT-1"[1..] == "T-1" && "T-1"[1..] == "-1" && "-1"[1..] == "1" && "1"[1..] == "";
  }

  /** Two open codes for one serial, at two sites of one company. */
  lemma TwoOpenCodesForOneSerial()
    ensures var db := TwoSites();
            var a := IssueClaimCode(db, 7, 1, "AT-1", 0, 100).0;
            var b := IssueClaimCode(a, 7, 2, "AT-1", 0, 200).0;
            Inv(db) && Redeemable(b.claims, 0, 100, b.now) && Redeemable(b.claims, 1, 200, b.now)
            && b.claims[0].serial == b.claims[1].serial == "AT-1"
  {
    ShortSerial();
    TrimSpaceOfTrimmed("AT-1");
    hide *;
    TwoOpenCodes("AT-1");
  }

  function TwoSites(): Db {
    Db(0, map[1 := Site(7, true, false), 2 := Site(7, true, false)], map[], 0, map[], 0, map[], 0, {}, {})
  }

  lemma TwoOpenCodes(serial: string)
    requires TrimSpace(serial) == serial && serial != "" && ByteLength(serial) <= MAX_SERIAL_LENGTH
    ensures var db := TwoSites();
            var a := IssueClaimCode(db, 7, 1, serial, 0, 100).0;
            var b := IssueClaimCode(a, 7, 2, serial, 0, 200).0;
            Inv(db) && Redeemable(b.claims, 0, 100, b.now) && Redeemable(b.claims, 1, 200, b.now)
            && b.claims[0].serial == b.claims[1].serial == serial
  {
    hide TrimSpace;
    hide ByteLength;
    var a := IssueClaimCode(TwoSites(), 7, 1, serial, 0, 100).0;
    assert a.claims[0] == Claim(1, 7, 100, serial, DEFAULT_CLAIM_TTL, None, false);
  }
}
