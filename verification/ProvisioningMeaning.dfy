/**
 * What the provisioning steps do, spelled out against the tables alone: who is told what, in
 * which order the reasons go, and every row a step leaves.
 */
module ProvisioningMeaning {
  import opened Options
  import opened Text
  import opened Provisioning
  import opened ProvisioningInvariant
  import opened ProvisioningRuns

  // ---- Registering ------------------------------------------------------------------

  /** The row of a serial that has not been deleted. */
  ghost predicate LiveRow(db: Db, d: nat, serial: string) {
    d in db.devices && !db.devices[d].deleted && db.devices[d].serial == serial
  }

  /** The key authenticates a live terminal with another serial. */
  ghost predicate KeyInUse(db: Db, serial: string, key: Secret) {
    exists d :: d in db.devices && !db.devices[d].deleted && db.devices[d].serial != serial && db.devices[d].key == Some(key)
  }

  ghost predicate LiveElsewhere(db: Db, serial: string, site: nat) {
    exists d :: LiveRow(db, d, serial) && db.devices[d].site != site
  }

  /** Live at the site, and switched off. */
  ghost predicate SwitchedOff(db: Db, serial: string, site: nat) {
    exists d :: LiveRow(db, d, serial) && db.devices[d].site == site && (db.devices[d].status == DISABLED || !db.devices[d].active)
  }

  ghost predicate MayRegister(db: Db, serial: string, site: nat, key: Secret) {
    !KeyInUse(db, serial, key) && !LiveElsewhere(db, serial, site) && !SwitchedOff(db, serial, site)
  }

  /** The devices after a registration: the live row online under the new key, or a new row. */
  ghost predicate Registered(db: Db, after: Db, d: nat, serial: string, site: nat, key: Secret, source: Source) {
    if exists e :: LiveRow(db, e, serial) then
      && LiveRow(db, d, serial) && after.nextDevice == db.nextDevice
      && after.devices == db.devices[d := db.devices[d].(status := ONLINE, key := Some(key), revoked := false,
                                                         registered := true, source := Some(source))]
    else
      && d == db.nextDevice && after.nextDevice == db.nextDevice + 1
      && after.devices == db.devices[d := Device(site, serial, ONLINE, true, Some(key), false, false, true, Some(source), false)]
  }

  /**
   * A registration, in full: refused for a key in use, then for a live terminal at another site,
   * then for one that is switched off, with the tables as they were; otherwise the row is online
   * under the new key.
   */
  lemma RegistrationInFull(db: Db, site: nat, serial: string, key: Secret, source: Source, grant: Grant)
    requires Inv(db)
    ensures var (after, r) := Register(db, site, serial, key, source, grant);
            && (r.Key? <==> MayRegister(db, serial, site, key))
            && (r == SecretCollision <==> KeyInUse(db, serial, key))
            && (r == SiteMismatch <==> !KeyInUse(db, serial, key) && LiveElsewhere(db, serial, site))
            && (r == DeviceDisabled <==> !KeyInUse(db, serial, key) && SwitchedOff(db, serial, site))
            && (!r.Key? ==> after == db)
            && (r.Key? ==> r == Key(r.device, key, grant) && Registered(db, after, r.device, serial, site, key, source)
                           && after == db.(devices := after.devices, nextDevice := after.nextDevice))
  {
    var found := FindLive(db.devices, serial);
    if found.Some? {
      var i := found.value;
      assert LiveRow(db, i, serial);
      forall d | LiveRow(db, d, serial) ensures d == i { assert IsLive(db.devices, d, serial); }
      TakenIsInUse(db, serial, key, i);
    } else {
      forall d ensures !LiveRow(db, d, serial) { assert !IsLive(db.devices, d, serial); }
      TakenIsInUse(db, serial, key, db.nextDevice);
    }
  }

  lemma TakenIsInUse(db: Db, serial: string, key: Secret, except: nat)
    requires forall d :: LiveRow(db, d, serial) ==> d == except
    requires except in db.devices ==> db.devices[except].serial == serial
    ensures KeyTaken(db.devices, key, except) <==> KeyInUse(db, serial, key)
  {
    if i :| i in db.devices && i != except && !db.devices[i].deleted && db.devices[i].key == Some(key) {
      assert !LiveRow(db, i, serial);
    }
  }

  // ---- Redeeming a code -----------------------------------------------------------------

  /** A code not redeemed, not superseded and not yet expired. */
  ghost predicate Redeems(db: Db, i: nat, code: Secret) {
    && i in db.claims && db.claims[i].code == code && db.claims[i].redeemed == None && !db.claims[i].superseded
    && db.now < db.claims[i].expiresAt
  }

  /** ... presented by the terminal it was issued for, for a site in use. */
  ghost predicate Fits(db: Db, i: nat, code: Secret, serial: string) {
    Redeems(db, i, code) && SameSerial(db.claims[i].serial, serial) && InUse(db, db.claims[i].site)
  }

  predicate InUse(db: Db, site: nat) { site in db.sites && db.sites[site].active && !db.sites[site].deleted }

  /**
   * Redeeming, in full. A wrong code, a wrong serial and a site out of use get one answer and
   * change nothing; otherwise it is a registration of the code's own serial at the code's own
   * site, and the code is spent exactly when that mints a key.
   */
  lemma RedemptionInFull(db: Db, code: Secret, text: string, key: Secret)
    requires Inv(db)
    ensures var (after, r) := RedeemClaimCode(db, code, text, key);
            && (r == SerialInvalid <==> TrimSpace(text) == "")
            && (r == Refused <==> (TrimSpace(text) != "" && !exists i :: Fits(db, i, code, TrimSpace(text))))
            && (!r.Key? ==> after == db)
            && forall i | Redeems(db, i, code) && r != SerialInvalid && r != Refused ::
                 var c := db.claims[i];
                 && (r.Key? <==> MayRegister(db, c.serial, c.site, key))
                 && (r == SecretCollision <==> KeyInUse(db, c.serial, key))
                 && (r == SiteMismatch <==> !KeyInUse(db, c.serial, key) && LiveElsewhere(db, c.serial, c.site))
                 && (r.Key? ==> (r == Key(r.device, key, ByClaim(i))
                                 && Registered(db, after, r.device, c.serial, c.site, key, ViaClaimCode)
                                 && after == db.(devices := after.devices, nextDevice := after.nextDevice,
                                                 claims := db.claims[i := c.(redeemed := Some(r.device))])))
  {
    hide TrimSpace;
    hide Register;
    hide SameSerial;
    hide EqualFold;
    if TrimSpace(text) != "" {
      forall i | Redeems(db, i, code) ensures Redeemable(db.claims, i, code, db.now) {}
      if i :| Redeems(db, i, code) {
        var c := db.claims[i];
        forall j | Redeems(db, j, code) ensures j == i {
          assert HasCode(db.claims, i, code) && HasCode(db.claims, j, code);
        }
        RedeemableRow(db, i, code);
        RegistrationInFull(db, c.site, c.serial, key, ViaClaimCode, ByClaim(i));
        FoldMeans(c.serial, TrimSpace(text));
        forall j | Fits(db, j, code, TrimSpace(text)) ensures Redeems(db, j, code) {}
        assert Fits(db, i, code, TrimSpace(text)) <==> EqualFold(c.serial, TrimSpace(text)) && SiteUsable(db.sites, c.site);
        hide Fits;
        hide Inv;
        hide MayRegister;
        hide KeyInUse;
        hide Registered;
      } else {
        forall i: nat ensures !Redeemable(db.claims, i, code, db.now) && !Fits(db, i, code, TrimSpace(text)) {
          assert !Redeems(db, i, code);
        }
      }
    }
  }

  lemma RedeemableRow(db: Db, i: nat, code: Secret)
    requires Inv(db) && Redeems(db, i, code)
    ensures forall j: nat :: Redeemable(db.claims, j, code, db.now) <==> j == i
  {
    forall j: nat | Redeemable(db.claims, j, code, db.now) ensures j == i {
      assert HasCode(db.claims, i, code) && HasCode(db.claims, j, code);
    }
  }

  // ---- Polling and collecting --------------------------------------------------------------

  /**
   * Polling, in full. Only a row inside its window answers: still waiting, or approved. An
   * approved one is collected exactly when its site is in use and the registration goes
   * through; a live terminal elsewhere, or one that is switched off, rolls it back for a
   * rejection to follow, and a site gone out of use rejects it at once.
   */
  lemma PollInFull(db: Db, token: Secret, key: Secret, i: nat)
    requires Inv(db) && i in db.announcements && db.announcements[i].token == token
    ensures var (after, r) := AnnouncementStatus(db, token, key);
            var a := db.announcements[i];
            if (a.state == Pending || a.state == Adopted) && db.now < a.expiresAt then after == db && r == Waiting(a.state)
            else if a.state != Approved || a.approvalExpiresAt <= db.now then after == db && r == Refused
            else if !InUse(db, a.site.value) then
              r == Refused && after == db.(announcements := db.announcements[i := a.(state := Rejected)])
            else
              && (r.Key? <==> MayRegister(db, a.serial, a.site.value, key))
              && (r == SecretCollision <==> KeyInUse(db, a.serial, key))
              && (!r.Key? ==> after == if r == SecretCollision then db else db.(lateRejects := db.lateRejects + {i}))
              && (r.Key? || r == SecretCollision || r == RolledBack(i))
              && (r.Key? ==> (r == Key(r.device, key, ByAnnouncement(i))
                              && Registered(db, after, r.device, a.serial, a.site.value, key, ViaAnnouncement)
                              && after == db.(devices := after.devices, nextDevice := after.nextDevice,
                                              announcements := db.announcements[i := a.(state := Collected, device := Some(r.device))])))
  {
    var a := db.announcements[i];
    assert FindToken(db.announcements, token) == Some(i) by {
      assert HasToken(db.announcements, i, token);
      assert HasToken(db.announcements, FindToken(db.announcements, token).value, token);
    }
    assert AnnouncementShape(a, db.sites);
    if a.site.Some? {
      RegistrationInFull(db, a.site.value, a.serial, key, ViaAnnouncement, ByAnnouncement(i));
    }
    hide Inv;
    hide Register;
    hide FindToken;
    hide KeyInUse;
    hide LiveElsewhere;
    hide SwitchedOff;
    hide Registered;
  }

  /** A token of no row is refused. */
  lemma UnknownTokenIsRefused(db: Db, token: Secret, key: Secret)
    requires forall i | i in db.announcements :: db.announcements[i].token != token
    ensures AnnouncementStatus(db, token, key) == (db, Refused)
  {
    assert forall i: nat :: !HasToken(db.announcements, i, token);
  }

  // ---- Announcing --------------------------------------------------------------------------

  predicate GoodSerial(s: string) {
    1 <= |s| <= 15 && forall c :: c in s ==> 'a' <= c <= 'z' || 'A' <= c <= 'Z' || '0' <= c <= '9' || c == '_' || c == '-'
  }

  /** Past its window. */
  predicate Lapsed(a: Announcement, now: nat) {
    || ((a.state == Pending || a.state == Adopted) && a.expiresAt <= now)
    || (a.state == Approved && a.approvalExpiresAt <= now)
  }

  /** The row an announcement is answered with: its own, or one an operator has already taken. */
  ghost predicate AnswersWith(db: Db, i: nat, serial: string, presented: Option<Secret>) {
    && i in db.announcements && db.announcements[i].serial == serial && !Lapsed(db.announcements[i], db.now)
    && (db.announcements[i].state in {Adopted, Approved}
        || (db.announcements[i].state == Pending && presented == Some(db.announcements[i].token)))
  }

  /** The new token is a row's token, or the new code that of another terminal still waiting. */
  ghost predicate SecretInUse(db: Db, serial: string, code: Secret, token: Secret) {
    exists i :: i in db.announcements &&
      var a := db.announcements[i];
      a.token == token || (a.serial != serial && a.code == code && (a.state == Pending || a.state == Adopted))
  }

  /** What announcing makes of a row: the terminal's own lapsed rows expire, and its own pending row gives way to a new one. */
  function RowAfter(a: Announcement, serial: string, now: nat, existing: bool): Announcement {
    if a.serial != serial then a
    else if Lapsed(a, now) then a.(state := Expired)
    else if a.state == Pending && !existing then a.(state := Superseded)
    else a
  }

  ghost predicate Announces(db: Db, after: Db, serial: string, existing: bool, code: Secret, token: Secret) {
    && after == db.(announcements := after.announcements, nextAnnouncement := after.nextAnnouncement)
    && (forall i | i in db.announcements :: i in after.announcements
          && after.announcements[i] == RowAfter(db.announcements[i], serial, db.now, existing))
    && (if existing then after.announcements.Keys == db.announcements.Keys && after.nextAnnouncement == db.nextAnnouncement
        else
          var next := db.nextAnnouncement;
          && after.announcements.Keys == db.announcements.Keys + {next} && after.nextAnnouncement == next + 1
          && after.announcements[next] == Announcement(serial, code, token, Pending, None, None, None, db.now + 15 * 60, 0))
  }

  /** Announcing, in full. */
  lemma AnnouncingInFull(db: Db, text: string, presented: Option<Secret>, code: Secret, token: Secret)
    requires Inv(db)
    ensures var (after, r) := Announce(db, text, presented, code, token);
            var serial := TrimSpace(text);
            if !GoodSerial(serial) then after == db && r == SerialInvalid
            else if exists i :: AnswersWith(db, i, serial, presented) then
              && Announces(db, after, serial, true, code, token)
              && (forall i | AnswersWith(db, i, serial, presented) :: r == Announced(i, true, db.announcements[i].state))
            else if SecretInUse(db, serial, code, token) then after == db && r == SecretCollision
            else Announces(db, after, serial, false, code, token) && r == Announced(db.nextAnnouncement, false, Pending)
  {
    var serial := TrimSpace(text);
    hide TrimSpace;
    SerialIsNormal(text);
    hide NormalizeSerial;
    hide GoodSerial;
    hide Announces;
    hide AnswersWith;
    hide SecretInUse;
    hide Inv;
    if NormalizeSerial(text).Some? {
      if i :| AnswersWith(db, i, serial, presented) {
        AnnouncedBySlot(db, text, serial, presented, code, token, i);
        hide Announce;
        forall j | AnswersWith(db, j, serial, presented) ensures j == i {
          AnnouncedBySlot(db, text, serial, presented, code, token, j);
        }
      } else {
        AnnouncedAnew(db, text, serial, presented, code, token);
        hide Announce;
      }
    }
  }

  lemma AnnouncedBySlot(db: Db, text: string, serial: string, presented: Option<Secret>, code: Secret, token: Secret, i: nat)
    requires Inv(db) && NormalizeSerial(text) == Some(serial) && AnswersWith(db, i, serial, presented)
    ensures var (after, r) := Announce(db, text, presented, code, token);
            Announces(db, after, serial, true, code, token) && r == Announced(i, true, db.announcements[i].state)
  {
    var anns := ExpireOverdue(db.announcements, db.now, Some(serial));
    SlotAfterExpiry(db, serial);
    hide Inv;
    hide NormalizeSerial;
    hide FindSlot;
    hide InsertAnnouncement;
    assert IsSlot(anns, i, serial);
  }

  /** The rows once the terminal's own have made way. */
  function Cleared(db: Db, serial: string): map<nat, Announcement> {
    map i | i in db.announcements :: RowAfter(db.announcements[i], serial, db.now, false)
  }

  lemma AnnouncedAnew(db: Db, text: string, serial: string, presented: Option<Secret>, code: Secret, token: Secret)
    requires Inv(db) && NormalizeSerial(text) == Some(serial) && forall i :: !AnswersWith(db, i, serial, presented)
    ensures var (after, r) := Announce(db, text, presented, code, token);
            if SecretInUse(db, serial, code, token) then after == db && r == SecretCollision
            else Announces(db, after, serial, false, code, token) && r == Announced(db.nextAnnouncement, false, Pending)
  {
    hide NormalizeSerial;
    assert db.nextAnnouncement !in db.announcements;
    hide Inv;
    hide Announce;
    hide AnswersWith;
    hide InsertAnnouncement;
    hide Announces;
    AnnounceInserts(db, text, serial, presented, code, token);
    NoneIsWaiting(db, serial, presented);
    SecretsCollide(db, Cleared(db, serial), serial, code, token);
    Inserted(db, Cleared(db, serial), serial, code, token);
  }

  lemma NoneIsWaiting(db: Db, serial: string, presented: Option<Secret>)
    requires forall i :: !AnswersWith(db, i, serial, presented)
    ensures forall i | i in db.announcements && Cleared(db, serial)[i].serial == serial ::
              Cleared(db, serial)[i].state != Pending && Cleared(db, serial)[i].state != Adopted
  {
    forall j | j in db.announcements && db.announcements[j].serial == serial
      ensures !(db.announcements[j].state == Adopted && !Lapsed(db.announcements[j], db.now))
    {
      assert !AnswersWith(db, j, serial, presented);
    }
  }

  lemma Inserted(db: Db, anns: map<nat, Announcement>, serial: string, code: Secret, token: Secret)
    requires anns.Keys == db.announcements.Keys && db.nextAnnouncement !in anns
    requires forall i | i in anns :: anns[i] == RowAfter(db.announcements[i], serial, db.now, false)
    ensures var (after, r) := InsertAnnouncement(db, anns, serial, code, token);
            if TokenTaken(anns, token) || CodeTaken(anns, code) then after == db && r == SecretCollision
            else Announces(db, after, serial, false, code, token) && r == Announced(db.nextAnnouncement, false, Pending)
  {
    hide TokenTaken;
    hide CodeTaken;
    hide RowAfter;
  }

  lemma AnnounceInserts(db: Db, text: string, serial: string, presented: Option<Secret>, code: Secret, token: Secret)
    requires Inv(db) && NormalizeSerial(text) == Some(serial) && forall i :: !AnswersWith(db, i, serial, presented)
    ensures Announce(db, text, presented, code, token) == InsertAnnouncement(db, Cleared(db, serial), serial, code, token)
  {
    var anns := ExpireOverdue(db.announcements, db.now, Some(serial));
    SlotAfterExpiry(db, serial);
    ClearedIs(db, serial, presented);
    hide Inv;
    hide NormalizeSerial;
    hide InsertAnnouncement;
    hide ExpireOverdue;
    hide Cleared;
    hide FindSlot;
    hide Lapsed;
    if i: nat :| IsSlot(anns, i, serial) {
      assert !AnswersWith(db, i, serial, presented);
    }
  }

  lemma RowIs(db: Db, serial: string, presented: Option<Secret>, i: nat)
    requires i in db.announcements && !AnswersWith(db, i, serial, presented)
    ensures var anns := ExpireOverdue(db.announcements, db.now, Some(serial));
            && anns.Keys == db.announcements.Keys == Cleared(db, serial).Keys
            && Cleared(db, serial)[i] == if IsSlot(anns, i, serial) then anns[i].(state := Superseded) else anns[i]
  {
  }

  lemma ClearedIs(db: Db, serial: string, presented: Option<Secret>)
    requires forall i: nat, j: nat :: IsSlot(db.announcements, i, serial) && IsSlot(db.announcements, j, serial) ==> i == j
    requires forall i :: !AnswersWith(db, i, serial, presented)
    ensures var anns := ExpireOverdue(db.announcements, db.now, Some(serial));
            && (forall i: nat :: IsSlot(anns, i, serial) ==> anns[i := anns[i].(state := Superseded)] == Cleared(db, serial))
            && ((forall i: nat :: !IsSlot(anns, i, serial)) ==> anns == Cleared(db, serial))
  {
    var anns := ExpireOverdue(db.announcements, db.now, Some(serial));
    assert anns.Keys == db.announcements.Keys == Cleared(db, serial).Keys;
    forall i: nat, j: nat | IsSlot(anns, i, serial) && IsSlot(anns, j, serial) ensures i == j {
      assert IsSlot(db.announcements, i, serial) && IsSlot(db.announcements, j, serial);
    }
    forall i | i in anns
      ensures Cleared(db, serial)[i] == if IsSlot(anns, i, serial) then anns[i].(state := Superseded) else anns[i]
    {
      RowIs(db, serial, presented, i);
    }
    hide ExpireOverdue;
    hide Cleared;
    forall i: nat | IsSlot(anns, i, serial) ensures anns[i := anns[i].(state := Superseded)] == Cleared(db, serial) {}
  }

  lemma SerialIsNormal(text: string)
    ensures NormalizeSerial(text) == if GoodSerial(TrimSpace(text)) then Some(TrimSpace(text)) else None
  {
    hide TrimSpace;
    var s := TrimSpace(text);
    if c :| c in s && !SerialChar(c) {
      var k :| 0 <= k < |s| && s[k] == c;
      assert !SerialChar(s[k]);
    }
    assert forall k | 0 <= k < |s| :: s[k] in s;
  }

  /** After the terminal's rows have expired, at most one of them holds its slot. */
  lemma SlotAfterExpiry(db: Db, serial: string)
    requires Inv(db)
    ensures var anns := ExpireOverdue(db.announcements, db.now, Some(serial));
            && (forall i: nat :: IsSlot(anns, i, serial) ==> FindSlot(anns, serial) == Some(i))
            && ((forall i: nat :: !IsSlot(anns, i, serial)) ==> FindSlot(anns, serial) == None)
            && (forall i: nat :: IsSlot(anns, i, serial) <==>
                  (i in db.announcements && db.announcements[i].serial == serial
                   && HoldsSlot(db.announcements[i].state) && !Lapsed(db.announcements[i], db.now)))
  {
    var anns := ExpireOverdue(db.announcements, db.now, Some(serial));
    forall i, j | IsSlot(anns, i, serial) && IsSlot(anns, j, serial) ensures i == j {
      assert IsSlot(db.announcements, i, serial) && IsSlot(db.announcements, j, serial);
    }
    hide Inv;
    if i: nat :| IsSlot(anns, i, serial) { assert IsSlot(anns, FindSlot(anns, serial).value, serial); }
  }

  lemma SecretsCollide(db: Db, anns: map<nat, Announcement>, serial: string, code: Secret, token: Secret)
    requires anns.Keys == db.announcements.Keys
    requires forall i | i in anns :: anns[i] == RowAfter(db.announcements[i], serial, db.now, false)
    requires forall i | i in anns && anns[i].serial == serial :: anns[i].state != Pending && anns[i].state != Adopted
    ensures TokenTaken(anns, token) || CodeTaken(anns, code) <==> SecretInUse(db, serial, code, token)
  {
    if i :| i in anns && CodeLive(anns, i, code) { assert i in db.announcements; }
    if i :| i in anns && anns[i].token == token { assert i in db.announcements; }
    if SecretInUse(db, serial, code, token) {
      var i :| i in db.announcements &&
        var a := db.announcements[i];
        a.token == token || (a.serial != serial && a.code == code && (a.state == Pending || a.state == Adopted));
      assert i in anns;
      if anns[i].token != token { assert CodeLive(anns, i, code); }
    }
  }

  // ---- Issuing a code ------------------------------------------------------------------------

  /** How long a code lasts when so many seconds are asked for: two hours unless said, and a day at most. */
  function ClaimSeconds(ttl: int): nat { if ttl <= 0 then 7200 else if ttl > 86400 then 86400 else ttl }

  /** Issuing, in full: the serial, then the site, then the new code; every open code of that serial at that site is closed. */
  lemma IssuingInFull(db: Db, company: nat, site: nat, text: string, ttl: int, code: Secret)
    requires Inv(db)
    ensures var (after, r) := IssueClaimCode(db, company, site, text, ttl, code);
            var serial := TrimSpace(text);
            if serial == "" || ByteLength(serial) > 15 then after == db && r == SerialInvalid
            else if !InUse(db, site) || db.sites[site].company != company then after == db && r == Refused
            else if exists i :: i in db.claims && db.claims[i].code == code then after == db && r == SecretCollision
            else
              && r == Done && after == db.(claims := after.claims, nextClaim := db.nextClaim + 1)
              && after.claims.Keys == db.claims.Keys + {db.nextClaim}
              && after.claims[db.nextClaim] == Claim(site, company, code, serial, db.now + ClaimSeconds(ttl), None, false)
              && forall i | i in db.claims :: after.claims[i] ==
                   var c := db.claims[i];
                   if c.site == site && c.serial == serial && c.redeemed == None then c.(superseded := true) else c
  {
    hide TrimSpace;
    hide ByteLength;
    assert db.nextClaim !in db.claims;
    hide Inv;
  }

  // ---- Administration ------------------------------------------------------------------------

  /** A live terminal at a site that has not been retired: what the console and the platform can act on. */
  ghost predicate Manageable(db: Db, d: nat) {
    && d in db.devices && !db.devices[d].deleted
    && db.devices[d].site in db.sites && !db.sites[db.devices[d].site].deleted
  }

  /**
   * Disabling a terminal shuts every door to it until it is enabled: no grant mints a key for
   * its serial. Enabled again, it may register where it stands, and reads OFFLINE until heard,
   * or PROVISIONING if it never registered.
   */
  lemma DisabledUntilEnabled(db: Db, d: nat, site: nat, key: Secret)
    requires Inv(db) && Manageable(db, d)
    ensures var off := Administer(db, d, Disable);
            var serial := db.devices[d].serial;
            && !MayRegister(off, serial, site, key)
            && (site == db.devices[d].site && !KeyInUse(db, serial, key) ==> SwitchedOff(off, serial, site))
            && var on := Administer(off, d, Enable);
               && d in on.devices && on.devices[d].status == (if db.devices[d].registered then OFFLINE else PROVISIONING)
               && (MayRegister(on, serial, site, key) <==> (site == db.devices[d].site && !KeyInUse(db, serial, key)))
  {
    var (row, serial) := (db.devices[d], db.devices[d].serial);
    var off := WithRow(db, d, row.(status := DISABLED, active := false));
    var on := WithRow(off, d, row.(status := if row.registered then OFFLINE else PROVISIONING, active := true));
    SwitchedIs(db, d);
    assert on == WithRow(db, d, on.devices[d]);
    hide Inv;
    hide Administer;
    hide KeyInUse;
    hide LiveRow;
    hide LiveElsewhere;
    hide SwitchedOff;
    RegistersAfter(db, d, off.devices[d], site, key);
    RegistersAfter(db, d, on.devices[d], site, key);
  }

  lemma RegistersAfter(db: Db, d: nat, row: Device, site: nat, key: Secret)
    requires Inv(db) && Manageable(db, d) && row.serial == db.devices[d].serial && !row.deleted
    ensures var after := WithRow(db, d, row);
            && (KeyInUse(after, row.serial, key) <==> KeyInUse(db, row.serial, key))
            && (LiveElsewhere(after, row.serial, site) <==> site != row.site)
            && (SwitchedOff(after, row.serial, site) <==> site == row.site && (row.status == DISABLED || !row.active))
  {
    RowChanged(db, d, row, key);
    hide LiveRow;
    hide KeyInUse;
    hide Inv;
    RegistersAt(WithRow(db, d, row), d, row.serial, site);
    hide LiveElsewhere;
    hide SwitchedOff;
  }

  lemma RegistersAt(db: Db, d: nat, serial: string, site: nat)
    requires d in db.devices && forall e :: LiveRow(db, e, serial) <==> e == d
    ensures LiveElsewhere(db, serial, site) <==> site != db.devices[d].site
    ensures SwitchedOff(db, serial, site) <==> site == db.devices[d].site && (db.devices[d].status == DISABLED || !db.devices[d].active)
  {
    assert LiveRow(db, d, serial);
    hide LiveRow;
  }

  function WithRow(db: Db, d: nat, row: Device): Db { db.(devices := db.devices[d := row]) }

  lemma SwitchedIs(db: Db, d: nat)
    requires Manageable(db, d)
    ensures var row := db.devices[d];
            var off := WithRow(db, d, row.(status := DISABLED, active := false));
            && Administer(db, d, Disable) == off
            && Administer(off, d, Enable) == WithRow(off, d, row.(status := if row.registered then OFFLINE else PROVISIONING, active := true))
  {
  }

  lemma ReleaseIs(db: Db, d: nat)
    requires Manageable(db, d)
    ensures var row := db.devices[d];
            var ordered := WithRow(db, d, row.(releaseOrdered := true));
            && Administer(db, d, OrderRelease) == ordered
            && Administer(ordered, d, CancelRelease) == WithRow(db, d, row.(releaseOrdered := false))
  {
    var ordered := WithRow(db, d, db.devices[d].(releaseOrdered := true));
    assert Administer(ordered, d, CancelRelease).devices == db.devices[d := db.devices[d].(releaseOrdered := false)];
  }

  /** A live row changed in place is still the serial's only one, and no other terminal's key is touched. */
  lemma RowChanged(db: Db, d: nat, row: Device, key: Secret)
    requires Inv(db) && Manageable(db, d) && row.serial == db.devices[d].serial && !row.deleted
    ensures forall e :: LiveRow(WithRow(db, d, row), e, row.serial) <==> e == d
    ensures KeyInUse(WithRow(db, d, row), row.serial, key) <==> KeyInUse(db, row.serial, key)
  {
    OnlyLiveRow(db, d);
    hide Inv;
    SameKeysInUse(db, WithRow(db, d, row), d, key);
    forall e ensures LiveRow(WithRow(db, d, row), e, row.serial) <==> e == d { assert LiveRow(db, e, row.serial) <==> e == d; }
  }

  lemma OnlyLiveRow(db: Db, d: nat)
    requires Inv(db) && d in db.devices && !db.devices[d].deleted
    ensures forall e :: LiveRow(db, e, db.devices[d].serial) <==> e == d
  {
    var serial := db.devices[d].serial;
    forall e ensures LiveRow(db, e, serial) <==> e == d {
      assert LiveRow(db, e, serial) ==> IsLive(db.devices, e, serial);
      assert IsLive(db.devices, d, serial);
    }
  }

  lemma SameKeysInUse(db: Db, after: Db, d: nat, key: Secret)
    requires d in db.devices && after.devices.Keys == db.devices.Keys && after.devices[d].serial == db.devices[d].serial
    requires forall e | e in db.devices && e != d :: after.devices[e] == db.devices[e]
    ensures KeyInUse(after, db.devices[d].serial, key) <==> KeyInUse(db, db.devices[d].serial, key)
  {
    var serial := db.devices[d].serial;
    if e :| e in db.devices && !db.devices[e].deleted && db.devices[e].serial != serial && db.devices[e].key == Some(key) {
      assert after.devices[e] == db.devices[e];
    }
    if e :| e in after.devices && !after.devices[e].deleted && after.devices[e].serial != serial && after.devices[e].key == Some(key) {
      assert after.devices[e] == db.devices[e];
    }
  }

  /** A release that has been ordered holds its own company's adoptions up, and nothing else, until it is cancelled. */
  lemma OrderedReleaseHoldsAdoption(db: Db, d: nat)
    requires Inv(db) && Manageable(db, d)
    ensures var (serial, company) := (db.devices[d].serial, db.sites[db.devices[d].site].company);
            var ordered := Administer(db, d, OrderRelease);
            && Verdict(ordered, serial, company) == Some(ReleaseInProgress)
            && (forall other | other != company :: Verdict(ordered, serial, other) == Some(OwnedElsewhere))
            && var cancelled := Administer(ordered, d, CancelRelease);
               && cancelled == db.(devices := db.devices[d := db.devices[d].(releaseOrdered := false)])
               && (NothingInTheWay(cancelled, serial, company) <==> db.devices[d].active)
  {
    var (row, serial) := (db.devices[d], db.devices[d].serial);
    var ordered := WithRow(db, d, row.(releaseOrdered := true));
    var cancelled := WithRow(db, d, row.(releaseOrdered := false));
    AdministerKeeps(db, d, OrderRelease);
    assert DeviceShape(row, db.sites);
    ReleaseIs(db, d);
    RowChanged(db, d, cancelled.devices[d], 0);
    hide Inv;
    hide Administer;
    hide Verdict;
    hide KeyInUse;
    assert Stands(ordered, d, serial) && Stands(cancelled, d, serial);
    forall company: nat
      ensures Verdict(ordered, serial, company)
              == Some(if company == db.sites[row.site].company then ReleaseInProgress else OwnedElsewhere)
    {
      VerdictOfStanding(ordered, serial, company, d);
    }
    forall e | Stands(cancelled, e, serial) ensures e == d { assert LiveRow(cancelled, e, serial); }
  }

  /**
   * Finalizing a release that was ordered frees the serial: the row is deleted and keyless, the
   * serial is live nowhere and in nobody's way, and every announcement in flight for it is
   * closed. No other terminal is touched.
   */
  lemma FinalizedReleaseFreesTheSerial(db: Db, d: nat)
    requires Inv(db) && Manageable(db, d) && db.devices[d].releaseOrdered
    ensures var (after, serial) := (Administer(db, d, FinalizeRelease), db.devices[d].serial);
            && after.devices.Keys == db.devices.Keys && after.announcements.Keys == db.announcements.Keys
            && after.devices[d].deleted && after.devices[d].key == None
            && (forall e | e in db.devices && e != d :: after.devices[e] == db.devices[e])
            && (forall e :: !LiveRow(after, e, serial))
            && (forall company :: NothingInTheWay(after, serial, company))
            && (forall i | i in db.announcements ::
                  if db.announcements[i].serial == serial then after.announcements[i].state !in {Pending, Adopted, Approved}
                  else after.announcements[i] == db.announcements[i])
  {
    var serial := db.devices[d].serial;
    var after := Administer(db, d, FinalizeRelease);
    OnlyLiveRow(db, d);
    hide Inv;
    forall e ensures !LiveRow(after, e, serial) { assert LiveRow(db, e, serial) <==> e == d; }
    forall e ensures !Stands(after, e, serial) { assert !LiveRow(after, e, serial); }
  }

  /** Retiring a site deletes every terminal at it, and only those; its key is refused from then on. */
  lemma RetiredSiteIsEmpty(db: Db, site: nat)
    requires site in db.sites && !db.sites[site].deleted
    ensures var after := RetireSite(db, site);
            && !InUse(after, site) && ShowSiteKey(after, site) == (after, Refused)
            && after.devices.Keys == db.devices.Keys
            && (forall d | d in db.devices :: if db.devices[d].site == site then after.devices[d].deleted else after.devices[d] == db.devices[d])
            && (forall other | other != site :: InUse(after, other) <==> InUse(db, other))
  {
  }
}
