/**
 * The credential store as the code runs it (database/api_credentials.go): each function is a
 * series of statements over the table, undone as a whole when one fails. Every method is
 * proved equal to its transaction's steps taken without interruption.
 */
module ApiCredentialStore {
  import opened Options
  import opened Text
  import opened ApiCredentials
  import opened ApiCredentialRuns

  datatype Error =
    | NoScopes | NameInvalid | ExpiryInPast | UnknownEnvironment | LimitReached | NameTaken
    | GraceTooLong | NotFound | AlreadyRevoked | AlreadySuperseded | ExpiryCheckFailed

  /** A name of one to eighty bytes. */
  predicate NameFits(name: string) { name != "" && ByteLength(name) <= 80 }

  class CredentialStore {
    var now: int
    var rows: seq<Row>
    /** Other callers' transactions in flight. */
    var txs: map<nat, Tx>

    constructor (start: int)
      ensures State() == Start(start)
    {
      now, rows, txs := start, [], map[];
    }

    ghost function State(): Db
      reads this
    {
      Db(now, rows, txs)
    }

    /** IssueAPICredential, once it holds the company's lock. */
    method Issue(ghost t: nat, company: int, terms: Terms, expiresAt: Option<int>) returns (r: Result<nat, Error>)
      requires t !in txs && LockFree(txs, company)
      modifies `rows
      ensures State() == Run(old(State()), [BeginIssue(t, company, terms, expiresAt), Count(t), CommitIssue(t)])
      ensures r.Ok? ==> rows == old(rows) + [Row(company, terms.(name := TrimSpace(terms.name)), |old(rows)|, now, expiresAt, None, None, false)]
      ensures r.Ok? ==> r.value == |old(rows)| && Authenticates(rows[r.value], now)
      ensures r.Err? ==> rows == old(rows)
      ensures r == Err(NoScopes) <==> terms.scopes == []
      ensures r == Err(NameInvalid) <==> terms.scopes != [] && !NameFits(TrimSpace(terms.name))
      ensures r == Err(ExpiryInPast) <==>
                terms.scopes != [] && NameFits(TrimSpace(terms.name)) && expiresAt.Some? && expiresAt.value <= now
      ensures r == Err(UnknownEnvironment) <==>
                terms.scopes != [] && NameFits(TrimSpace(terms.name)) && (expiresAt.Some? ==> now < expiresAt.value)
                && terms.environment != "live" && terms.environment != "test"
      ensures r == Err(LimitReached) ==> |LiveRows(rows, company)| >= 20
      ensures r == Err(NameTaken) ==> |LiveRows(rows, company)| < 20
      ensures r == Err(NameTaken) ==> exists i :: i in LiveRows(rows, company) && ToLower(rows[i].terms.name) == ToLower(TrimSpace(terms.name))
      ensures r.Ok? ==> |LiveRows(old(rows), company)| < 20 && forall i :: i in LiveRows(old(rows), company) ==>
                          ToLower(old(rows)[i].terms.name) != ToLower(TrimSpace(terms.name))
      ensures r.Ok? || r.error in {NoScopes, NameInvalid, ExpiryInPast, UnknownEnvironment, LimitReached, NameTaken}
    {
      LiveCountIsSize(rows, company);
      hide LiveCount;
      hide ToLower;
      hide TrimSpace;
      ghost var begin, count, commit := BeginIssue(t, company, terms, expiresAt), Count(t), CommitIssue(t);
      ghost var before := State();
      ThreeSteps(before, begin, count, commit);
      IssueSteps(before, t, company, terms, expiresAt);
      if terms.scopes == [] {
        return Err(NoScopes);
      }
      var name := TrimSpace(terms.name);
      if name == "" || ByteLength(name) > MAX_NAME {
        return Err(NameInvalid);
      }
      if expiresAt.Some? && !(expiresAt.value > now) {
        return Err(ExpiryInPast);
      }
      if terms.environment !in {"live", "test"} {
        return Err(UnknownEnvironment);
      }
      if LiveCount(rows, company) >= CAP {
        return Err(LimitReached);
      }
      var row := Row(company, terms.(name := name), |rows|, now, expiresAt, None, None, false);
      if !NameFree(rows, row) {
        return Err(NameTaken);
      }
      rows := rows + [row];
      return Ok(|rows| - 1);
    }

    /**
     * RotateAPICredential, once it holds the company's lock and the row's. The old row is
     * superseded first and checked against afterwards, so a refused replacement is undone.
     */
    method Rotate(ghost t: nat, company: int, id: nat, grace: int) returns (r: Result<nat, Error>)
      requires t !in txs && LockFree(txs, company)
      modifies `rows
      ensures State() == Run(old(State()), [BeginRotate(t, company, id, grace), Hold(t), CommitRotate(t)])
      ensures r.Ok? ==> r.value == |old(rows)| && id < |old(rows)|
      ensures r.Ok? ==> rows == old(rows)[id := old(rows)[id].(supersededBy := Some(r.value),
                                                               graceUntil := Some(now + if grace < 0 then 0 else grace))]
                                + [old(rows)[id].(createdAt := now, graceUntil := None, supersededBy := None, revoked := false)]
      ensures r.Err? ==> rows == old(rows)
      ensures r == Err(GraceTooLong) <==> grace > 30 * 24 * 3600
      ensures r == Err(NotFound) <==> grace <= 30 * 24 * 3600 && !(id < |old(rows)| && old(rows)[id].company == company)
      ensures grace <= 30 * 24 * 3600 && id < |old(rows)| && old(rows)[id].company == company ==>
                && (r == Err(AlreadyRevoked) <==> old(rows)[id].revoked)
                && (r == Err(AlreadySuperseded) <==> !old(rows)[id].revoked && old(rows)[id].graceUntil.Some?)
                && (r == Err(ExpiryCheckFailed) ==> old(rows)[id].expiresAt.Some? && old(rows)[id].expiresAt.value <= now)
    {
      hide LiveCount;
      hide ToLower;
      ghost var before := State();
      ThreeSteps(before, BeginRotate(t, company, id, grace), Hold(t), CommitRotate(t));
      RotateSteps(before, t, company, id, grace);
      if grace > MAX_GRACE {
        return Err(GraceTooLong);
      }
      if id >= |rows| || rows[id].company != company {
        return Err(NotFound);
      }
      if rows[id].revoked {
        return Err(AlreadyRevoked);
      }
      if rows[id].graceUntil.Some? {
        return Err(AlreadySuperseded);
      }
      var saved := rows;
      var graceUntil := now + (if grace < 0 then 0 else grace);
      rows := rows[id := rows[id].(graceUntil := Some(graceUntil))];
      var heir := Replacement(saved[id], now);
      LinkIsNotLive(saved, id, graceUntil, heir);
      if !NameFree(rows, heir) {
        rows := saved;
        return Err(NameTaken);
      }
      if !ExpiryAllowed(heir) {
        rows := saved;
        return Err(ExpiryCheckFailed);
      }
      var newId := |rows|;
      rows := rows + [heir];
      rows := rows[id := rows[id].(supersededBy := Some(newId))];
      return Ok(newId);
    }

    /** RevokeAPICredential, once no rotation holds the row. */
    method RevokeOne(company: int, id: nat) returns (r: Result<(), Error>)
      requires RowFree(txs, id)
      modifies `rows
      ensures State() == Next(old(State()), Revoke(company, id))
      ensures r.Ok? <==> id < |old(rows)| && old(rows)[id].company == company && !old(rows)[id].revoked
      ensures r == Err(NotFound) <==> !(id < |old(rows)| && old(rows)[id].company == company)
      ensures r.Err? ==> r.error in {NotFound, AlreadyRevoked}
      ensures rows == if r.Ok? then old(rows)[id := old(rows)[id].(revoked := true)] else old(rows)
      ensures r.Ok? ==> !Authenticates(rows[id], now)
    {
      if id >= |rows| || rows[id].company != company {
        return Err(NotFound);
      }
      if rows[id].revoked {
        assert rows[id].(revoked := true) == rows[id];
        return Err(AlreadyRevoked);
      }
      rows := rows[id := rows[id].(revoked := true)];
      return Ok(());
    }

    /** RevokeAllAPICredentials with nothing in its way: the number of rows it turned off. */
    method RevokeAll(ghost t: nat, company: int) returns (affected: nat)
      requires t !in txs && NoneHeld(State(), company, |rows|)
      modifies `rows
      ensures State() == Next(Next(old(State()), BeginRevokeAll(t, company)), EndRevokeAll(t))
      ensures |rows| == |old(rows)|
      ensures forall i :: 0 <= i < |rows| ==>
                rows[i] == if old(rows)[i].company == company then old(rows)[i].(revoked := true) else old(rows)[i]
      ensures forall i :: 0 <= i < |rows| && rows[i].company == company ==> !Authenticates(rows[i], now)
      ensures affected == |StillOn(old(rows), company, |old(rows)|)|
    {
      ghost var before := rows;
      assert NoneHeld(Next(State(), BeginRevokeAll(t, company)), company, |rows|);
      affected := 0;
      for i := 0 to |rows|
        invariant |rows| == |before|
        invariant forall k :: 0 <= k < i ==> rows[k] == if before[k].company == company then before[k].(revoked := true) else before[k]
        invariant forall k :: i <= k < |rows| ==> rows[k] == before[k]
        invariant affected == |StillOn(before, company, i)|
      {
        OneMoreOn(before, company, i);
        hide StillOn;
        if rows[i].company == company && !rows[i].revoked {
          rows := rows[i := rows[i].(revoked := true)];
          affected := affected + 1;
        }
      }
      assert rows == RevokeSeen(before, company, |before|);
      assert txs[t := RevokingAll(company, |before|)] - {t} == txs;
    }
  }

  /** The rows of a company among the first n that have not been revoked. */
  ghost function StillOn(rows: seq<Row>, company: int, n: nat): set<int>
    requires n <= |rows|
  {
    set i | 0 <= i < n && rows[i].company == company && !rows[i].revoked
  }

  lemma OneMoreOn(rows: seq<Row>, company: int, n: nat)
    requires n < |rows|
    ensures |StillOn(rows, company, n + 1)|
         == |StillOn(rows, company, n)| + if rows[n].company == company && !rows[n].revoked then 1 else 0
  {
    assert StillOn(rows, company, n + 1)
        == if rows[n].company == company && !rows[n].revoked then StillOn(rows, company, n) + {n} else StillOn(rows, company, n);
  }

  lemma ThreeSteps(db: Db, a: Step, b: Step, c: Step)
    ensures Run(db, [a, b, c]) == Next(Next(Next(db, a), b), c)
  {
    hide Next;
    assert [a, b, c][1..] == [b, c] && [b, c][1..] == [c] && [c][1..] == [];
    assert Run(db, [a, b, c]) == Run(Next(db, a), [b, c]);
    assert Run(Next(db, a), [b, c]) == Run(Next(Next(db, a), b), [c]);
  }

  /** The issue transaction, uninterrupted: one of its guards fails and nothing changes, or the row is added. */
  lemma IssueSteps(db: Db, t: nat, company: int, terms: Terms, expiresAt: Option<int>)
    requires t !in db.txs && LockFree(db.txs, company)
    ensures var row := Row(company, TrimmedTerms(terms), |db.rows|, db.now, expiresAt, None, None, false);
            Next(Next(Next(db, BeginIssue(t, company, terms, expiresAt)), Count(t)), CommitIssue(t))
            == if ValidTerms(terms) && (expiresAt.Some? ==> expiresAt.value > db.now)
                  && LiveCount(db.rows, company) < CAP && NameFree(db.rows, row)
               then db.(rows := db.rows + [row]) else db
  {
    hide LiveCount;
    hide NameFree;
    hide ValidTerms;
    hide LockFree;
    var tx := Issuing(company, db.now, terms, expiresAt, false);
    assert db.txs[t := tx] - {t} == db.txs;
    assert db.txs[t := tx][t := tx.(counted := true)] - {t} == db.txs;
  }

  lemma RotateSteps(db: Db, t: nat, company: int, id: nat, grace: int)
    requires t !in db.txs && LockFree(db.txs, company)
    ensures Next(Next(Next(db, BeginRotate(t, company, id, grace)), Hold(t)), CommitRotate(t))
            == if grace <= MAX_GRACE && id < |db.rows| && db.rows[id].company == company && Live(db.rows[id])
               then
                 var updated := db.rows[id := Superseded(db.rows[id], |db.rows|, db.now + if grace < 0 then 0 else grace)];
                 var heir := Replacement(db.rows[id], db.now);
                 if NameFree(updated, heir) && ExpiryAllowed(heir) then db.(rows := updated + [heir]) else db
               else db
  {
    hide NameFree;
    hide LockFree;
    var tx := Rotating(company, db.now, id, grace, false);
    assert db.txs[t := tx] - {t} == db.txs;
    assert db.txs[t := tx][t := tx.(held := true)] - {t} == db.txs;
  }

  /**
   * A rotation that nothing interrupts goes through exactly when the credential is the
   * company's, live and unexpired and the grace is not too long. The cap has no say: the
   * company holds as many live credentials after it as before. Both then authenticate until
   * the grace ends, and after it only the replacement, up to the expiry the two share.
   */
  lemma RotationGoesThroughExactlyWhen(db: Db, t: nat, company: int, id: nat, grace: int)
    requires Inv(db) && t !in db.txs && LockFree(db.txs, company)
    ensures var after := Run(db, [BeginRotate(t, company, id, grace), Hold(t), CommitRotate(t)]);
            && (|after.rows| == |db.rows| + 1 <==>
                  grace <= MAX_GRACE && id < |db.rows| && db.rows[id].company == company
                  && Live(db.rows[id]) && Unexpired(db.rows[id], db.now))
            && (|after.rows| != |db.rows| + 1 ==> after == db)
            && (forall c :: LiveCount(after.rows, c) == LiveCount(db.rows, c))
            && (|after.rows| == |db.rows| + 1 ==>
                  forall later ::
                    && (Authenticates(after.rows[id], later) <==>
                          Unexpired(db.rows[id], later) && later < db.now + if grace < 0 then 0 else grace)
                    && (Authenticates(after.rows[|db.rows|], later) <==> Unexpired(db.rows[id], later)))
  {
    hide Next;
    hide LiveCount;
    hide NameFree;
    hide Chained;
    hide NamesDiffer;
    ThreeSteps(db, BeginRotate(t, company, id, grace), Hold(t), CommitRotate(t));
    RotateSteps(db, t, company, id, grace);
    if id < |db.rows| && Live(db.rows[id]) {
      RotationKeepsNamesAndCount(db.rows, id, db.now, db.now + if grace < 0 then 0 else grace);
    }
  }

  /** Whether the old row already points at its heir makes no difference to the live-name index. */
  lemma LinkIsNotLive(rows: seq<Row>, id: nat, graceUntil: int, heir: Row)
    requires id < |rows|
    ensures NameFree(rows[id := Superseded(rows[id], |rows|, graceUntil)], heir)
       <==> NameFree(rows[id := rows[id].(graceUntil := Some(graceUntil))], heir)
  {
    var a, b := rows[id := Superseded(rows[id], |rows|, graceUntil)], rows[id := rows[id].(graceUntil := Some(graceUntil))];
    forall i | 0 <= i < |rows| ensures SameLiveName(a[i], heir) <==> SameLiveName(b[i], heir) {}
  }
}
