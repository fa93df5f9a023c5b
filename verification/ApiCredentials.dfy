/**
 * Integration credentials (database/api_credentials.go): issue, rotate, revoke and revoke-all
 * as interleaved transactions over one table, with the per-company advisory lock.
 *
 * A transaction is a record of what it has done so far; a step advances one transaction by one
 * database action. A transaction that would wait for a lock simply cannot take its step yet.
 * Row ids are positions in the table, so a key hash is the row it finds.
 */
module ApiCredentials {
  import opened Options
  import opened Text

  const CAP := 20
  const MAX_NAME := 80
  const MAX_GRACE := 30 * 24 * 3600

  /** What an integration may do: the part of a credential a rotation carries over. */
  datatype Terms = Terms(name: string, environment: string, scopes: seq<string>, sites: set<int>)

  /** graceUntil is set with superseded_at (the rotation CHECK), so it doubles as that marker. */
  datatype Row = Row(company: int, terms: Terms, lineage: nat, createdAt: int, expiresAt: Option<int>,
                     graceUntil: Option<int>, supersededBy: Option<nat>, revoked: bool)

  /** Neither revoked nor superseded: what the cap counts and the live-name index covers. */
  predicate Live(r: Row) { !r.revoked && r.graceUntil.None? }

  predicate Unexpired(r: Row, now: int) { r.expiresAt.None? || r.expiresAt.value > now }

  /** The row half of the authentication query; the company must be active besides. */
  predicate Authenticates(r: Row, now: int) {
    !r.revoked && Unexpired(r, now) && (r.graceUntil.None? || r.graceUntil.value > now)
  }

  datatype Status = Active | InGrace | Expired | Revoked

  /** credentialStatus: revoked beats expired beats grace. */
  function CredentialStatus(r: Row, now: int): Status {
    if r.revoked then Revoked
    else if r.expiresAt.Some? && !(r.expiresAt.value > now) then Expired
    else if r.graceUntil.Some? then (if r.graceUntil.value > now then InGrace else Expired)
    else Active
  }

  /** The console's status and the authentication query agree on every row at every moment. */
  lemma StatusIsAuthentication(r: Row, now: int)
    ensures CredentialStatus(r, now) in {Active, InGrace} <==> Authenticates(r, now)
    ensures CredentialStatus(r, now) == Active <==> Authenticates(r, now) && Live(r)
  {
  }

  // ---- Transactions --------------------------------------------------------------------

  datatype Tx =
    | Issuing(company: int, began: int, terms: Terms, expiresAt: Option<int>, counted: bool)
    | Rotating(company: int, began: int, id: nat, grace: int, held: bool)
    | RevokingAll(company: int, seen: nat)

  datatype Db = Db(now: int, rows: seq<Row>, txs: map<nat, Tx>)

  /** pg_advisory_xact_lock(30, company): taken by issue and rotate, not by revocation. */
  predicate Locks(tx: Tx, company: int) { !tx.RevokingAll? && tx.company == company }

  predicate LockFree(txs: map<nat, Tx>, company: int) {
    forall t :: t in txs ==> !Locks(txs[t], company)
  }

  /** FOR UPDATE: a rotation that has read its row keeps others from writing it. */
  predicate Holds(tx: Tx, id: nat) { tx.Rotating? && tx.held && tx.id == id }

  predicate RowFree(txs: map<nat, Tx>, id: nat) {
    forall t :: t in txs ==> !Holds(txs[t], id)
  }

  function LiveCount(rows: seq<Row>, company: int): nat {
    if rows == [] then 0
    else LiveCount(rows[..|rows| - 1], company)
         + (if rows[|rows| - 1].company == company && Live(rows[|rows| - 1]) then 1 else 0)
  }

  predicate SameLiveName(r: Row, s: Row) {
    Live(r) && Live(s) && r.company == s.company && ToLower(r.terms.name) == ToLower(s.terms.name)
  }

  /** The insert meets no row of api_credentials_company_name_live. */
  predicate NameFree(rows: seq<Row>, row: Row) {
    forall i :: 0 <= i < |rows| ==> !SameLiveName(rows[i], row)
  }

  predicate ExpiryAllowed(r: Row) { r.expiresAt.None? || r.expiresAt.value > r.createdAt }

  datatype Step =
    | Tick(elapsed: nat)
    | BeginIssue(t: nat, company: int, terms: Terms, expiresAt: Option<int>)
    | Count(t: nat)
    | CommitIssue(t: nat)
    | BeginRotate(t: nat, company: int, id: nat, grace: int)
    | Hold(t: nat)
    | CommitRotate(t: nat)
    | Revoke(company: int, id: nat)
    | BeginRevokeAll(t: nat, company: int)
    | EndRevokeAll(t: nat)
    | Abort(t: nat)

  function Drop(db: Db, t: nat): Db { db.(txs := db.txs - {t}) }

  /** The terms after ValidateAPICredentialName. */
  function TrimmedTerms(terms: Terms): Terms { terms.(name := TrimSpace(terms.name)) }

  predicate ValidTerms(terms: Terms) {
    terms.scopes != [] && TrimSpace(terms.name) != "" && ByteLength(TrimSpace(terms.name)) <= MAX_NAME && terms.environment in {"live", "test"}
  }

  /** Input checks come before the transaction; the lock is its first action. */
  predicate MayBeginIssue(db: Db, t: nat, company: int, terms: Terms, expiresAt: Option<int>) {
    && t !in db.txs && LockFree(db.txs, company) && ValidTerms(terms)
    && (expiresAt.Some? ==> expiresAt.value > db.now)
  }

  /** assertCredentialHeadroom. */
  function CountStep(db: Db, t: nat): Db
    requires t in db.txs && db.txs[t].Issuing?
  {
    var tx := db.txs[t];
    if LiveCount(db.rows, tx.company) >= CAP then Drop(db, t)
    else db.(txs := db.txs[t := tx.(counted := true)])
  }

  function Issued(tx: Tx, id: nat): Row
    requires tx.Issuing?
  {
    Row(tx.company, TrimmedTerms(tx.terms), id, tx.began, tx.expiresAt, None, None, false)
  }

  function CommitIssueStep(db: Db, t: nat): Db
    requires t in db.txs && db.txs[t].Issuing?
  {
    var row := Issued(db.txs[t], |db.rows|);
    if NameFree(db.rows, row) && ExpiryAllowed(row) then Drop(db, t).(rows := db.rows + [row]) else Drop(db, t)
  }

  predicate MayHold(db: Db, t: nat) {
    && t in db.txs && db.txs[t].Rotating?
    && var tx := db.txs[t]; tx.id < |db.rows| && db.rows[tx.id].company == tx.company && Live(db.rows[tx.id])
  }

  function HoldStep(db: Db, t: nat): Db
    requires t in db.txs && db.txs[t].Rotating?
  {
    if MayHold(db, t) then db.(txs := db.txs[t := db.txs[t].(held := true)]) else Drop(db, t)
  }

  function Superseded(row: Row, heir: nat, graceUntil: int): Row {
    row.(supersededBy := Some(heir), graceUntil := Some(graceUntil))
  }

  function Replacement(row: Row, began: int): Row {
    Row(row.company, row.terms, row.lineage, began, row.expiresAt, None, None, false)
  }

  /** The old row is superseded before the replacement is inserted under the same name. */
  function CommitRotateStep(db: Db, t: nat): Db
    requires t in db.txs && db.txs[t].Rotating? && db.txs[t].id < |db.rows|
  {
    var tx := db.txs[t];
    var row := db.rows[tx.id];
    var grace := if tx.grace < 0 then 0 else tx.grace;
    var updated := db.rows[tx.id := Superseded(row, |db.rows|, db.now + grace)];
    var heir := Replacement(row, tx.began);
    if NameFree(updated, heir) && ExpiryAllowed(heir) then Drop(db, t).(rows := updated + [heir]) else Drop(db, t)
  }

  /** Revoke the company's rows among the first `seen`. */
  function RevokeSeen(rows: seq<Row>, company: int, seen: nat): seq<Row> {
    seq(|rows|, i requires 0 <= i < |rows| => if i < seen && rows[i].company == company then rows[i].(revoked := true) else rows[i])
  }

  predicate NoneHeld(db: Db, company: int, seen: nat) {
    forall t :: t in db.txs ==> !(db.txs[t].Rotating? && db.txs[t].held && db.txs[t].company == company && db.txs[t].id < seen)
  }

  /** A step that is not enabled changes nothing: the caller waits, or was refused before the database. */
  function Next(db: Db, s: Step): Db {
    match s
    case Tick(elapsed) => db.(now := db.now + elapsed)
    case BeginIssue(t, company, terms, expiresAt) =>
      if MayBeginIssue(db, t, company, terms, expiresAt)
      then db.(txs := db.txs[t := Issuing(company, db.now, terms, expiresAt, false)]) else db
    case Count(t) => if t in db.txs && db.txs[t].Issuing? then CountStep(db, t) else db
    case CommitIssue(t) => if t in db.txs && db.txs[t].Issuing? && db.txs[t].counted then CommitIssueStep(db, t) else db
    case BeginRotate(t, company, id, grace) =>
      if t !in db.txs && LockFree(db.txs, company) && grace <= MAX_GRACE
      then db.(txs := db.txs[t := Rotating(company, db.now, id, grace, false)]) else db
    case Hold(t) => if t in db.txs && db.txs[t].Rotating? && !db.txs[t].held then HoldStep(db, t) else db
    case CommitRotate(t) =>
      if t in db.txs && db.txs[t].Rotating? && db.txs[t].held && db.txs[t].id < |db.rows| then CommitRotateStep(db, t) else db
    case Revoke(company, id) =>
      if id < |db.rows| && db.rows[id].company == company && RowFree(db.txs, id)
      then db.(rows := db.rows[id := db.rows[id].(revoked := true)]) else db
    case BeginRevokeAll(t, company) =>
      if t !in db.txs then db.(txs := db.txs[t := RevokingAll(company, |db.rows|)]) else db
    case EndRevokeAll(t) =>
      if t in db.txs && db.txs[t].RevokingAll? && NoneHeld(db, db.txs[t].company, db.txs[t].seen)
      then Drop(db, t).(rows := RevokeSeen(db.rows, db.txs[t].company, db.txs[t].seen)) else db
    case Abort(t) => Drop(db, t)
  }

  function Start(now: int): Db { Db(now, [], map[]) }

  function Run(db: Db, steps: seq<Step>): Db
    decreases |steps|
  {
    if steps == [] then db else Run(Next(db, steps[0]), steps[1..])
  }
}
