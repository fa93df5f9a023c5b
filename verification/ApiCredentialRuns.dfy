/**
 * What every interleaving of credential transactions keeps: the cap, unique live names, and
 * lineages that are single unbranched chains; and what rotation and revocation promise.
 */
module ApiCredentialRuns {
  import opened Options
  import opened Text
  import opened ApiCredentials

  // ---- The table's invariant -------------------------------------------------------------

  ghost predicate Follows(rows: seq<Row>, i: nat, j: nat) {
    i < |rows| && rows[i].supersededBy == Some(j)
  }

  /** A superseded row names a later row of the same integration, with the same terms and expiry. */
  ghost predicate LinksForward(rows: seq<Row>) {
    forall i: nat, j: nat :: Follows(rows, i, j) ==>
      i < j < |rows| && rows[j].lineage == rows[i].lineage && rows[j].company == rows[i].company
      && rows[j].terms == rows[i].terms && rows[j].expiresAt == rows[i].expiresAt
  }

  ghost predicate MarksAgree(rows: seq<Row>) {
    forall i :: 0 <= i < |rows| ==> (rows[i].graceUntil.Some? <==> rows[i].supersededBy.Some?)
  }

  ghost predicate LinksDiffer(rows: seq<Row>) {
    forall i: nat, j: nat, k: nat :: Follows(rows, i, k) && Follows(rows, j, k) ==> i == j
  }

  /** Every row is the root of its own lineage or replaces an earlier row. */
  ghost predicate Rooted(rows: seq<Row>) {
    forall j :: 0 <= j < |rows| ==>
      rows[j].lineage <= j && (rows[j].lineage != j ==> exists i: nat :: Follows(rows, i, j))
  }

  /** A lineage has at most one row that nothing supersedes. */
  ghost predicate OneHead(rows: seq<Row>) {
    forall i, j | 0 <= i < |rows| && 0 <= j < |rows| && rows[i].lineage == rows[j].lineage ::
      rows[i].supersededBy == None && rows[j].supersededBy == None ==> i == j
  }

  ghost predicate NamesDiffer(rows: seq<Row>) {
    forall i, j :: 0 <= i < j < |rows| ==> !SameLiveName(rows[i], rows[j])
  }

  ghost predicate Chained(rows: seq<Row>) {
    LinksForward(rows) && MarksAgree(rows) && LinksDiffer(rows) && Rooted(rows) && OneHead(rows)
  }

  ghost predicate UnderCap(rows: seq<Row>) {
    forall company :: LiveCount(rows, company) <= CAP
  }

  /** What holds of the transactions in flight. */
  ghost predicate TxsValid(db: Db) {
    && (forall t, u, company :: t in db.txs && u in db.txs && Locks(db.txs[t], company) && Locks(db.txs[u], company) ==> t == u)
    && (forall t :: t in db.txs && db.txs[t].Issuing? ==> ValidTerms(db.txs[t].terms))
    && (forall t :: t in db.txs && db.txs[t].Issuing? && db.txs[t].counted ==> LiveCount(db.rows, db.txs[t].company) < CAP)
    && (forall t :: t in db.txs && db.txs[t].Rotating? && db.txs[t].held ==> MayHold(db, t))
    && (forall t :: t in db.txs && db.txs[t].RevokingAll? ==> db.txs[t].seen <= |db.rows|)
  }

  ghost predicate Inv(db: Db) {
    Chained(db.rows) && NamesDiffer(db.rows) && UnderCap(db.rows) && TxsValid(db)
  }

  // ---- Counting ---------------------------------------------------------------------------

  lemma {:induction false} CountOfUpdate(rows: seq<Row>, i: nat, r: Row, company: int)
    requires i < |rows| && r.company == rows[i].company
    ensures LiveCount(rows[i := r], company)
         == LiveCount(rows, company) + (if r.company == company && Live(r) then 1 else 0)
            - (if r.company == company && Live(rows[i]) then 1 else 0)
  {
    var n := |rows| - 1;
    if i == n {
      assert rows[i := r][..n] == rows[..n];
    } else {
      assert rows[i := r][..n] == rows[..n][i := r];
      CountOfUpdate(rows[..n], i, r, company);
    }
  }

  /** The rows of a company that are neither revoked nor superseded. */
  function LiveRows(rows: seq<Row>, company: int): set<int> {
    set i | 0 <= i < |rows| && rows[i].company == company && !rows[i].revoked && rows[i].graceUntil == None
  }

  lemma {:induction false} LiveCountIsSize(rows: seq<Row>, company: int)
    ensures LiveCount(rows, company) == |LiveRows(rows, company)|
  {
    if rows != [] {
      var n := |rows| - 1;
      LiveCountIsSize(rows[..n], company);
      if rows[n].company == company && Live(rows[n]) {
        assert LiveRows(rows, company) == LiveRows(rows[..n], company) + {n};
      } else {
        assert LiveRows(rows, company) == LiveRows(rows[..n], company);
      }
    }
  }

  lemma CountOfAppend(rows: seq<Row>, r: Row, company: int)
    ensures LiveCount(rows + [r], company) == LiveCount(rows, company) + (if r.company == company && Live(r) then 1 else 0)
  {
    assert (rows + [r])[..|rows|] == rows;
  }

  lemma {:induction false} CountOfRevoked(rows: seq<Row>, of: int, seen: nat, company: int)
    ensures LiveCount(RevokeSeen(rows, of, seen), company) <= LiveCount(rows, company)
  {
    if rows != [] {
      var n := |rows| - 1;
      CountOfRevoked(rows[..n], of, seen, company);
      assert RevokeSeen(rows, of, seen)[..n] == RevokeSeen(rows[..n], of, seen);
    }
  }

  // ---- Table changes keep the invariant -----------------------------------------------------

  lemma AppendRootChains(rows: seq<Row>, row: Row)
    requires Chained(rows) && row.lineage == |rows| && row.supersededBy == None && row.graceUntil == None
    ensures Chained(rows + [row])
  {
    var after := rows + [row];
    forall i: nat, j: nat ensures Follows(after, i, j) <==> Follows(rows, i, j) {}
    assert Rooted(after) by {
      forall j | 0 <= j < |after| && after[j].lineage != j ensures exists i: nat :: Follows(after, i, j) {
        assert after[j] == rows[j];
        var i: nat :| Follows(rows, i, j);
        assert Follows(after, i, j);
      }
    }
    assert OneHead(after) by {
      assert forall k :: 0 <= k < |rows| ==> after[k] == rows[k] && rows[k].lineage < |rows|;
    }
  }

  lemma AppendRoot(rows: seq<Row>, row: Row)
    requires Chained(rows) && NamesDiffer(rows) && UnderCap(rows)
    requires row.lineage == |rows| && row.supersededBy == None && row.graceUntil == None && NameFree(rows, row)
    requires LiveCount(rows, row.company) < CAP
    ensures Chained(rows + [row]) && NamesDiffer(rows + [row]) && UnderCap(rows + [row])
  {
    hide Chained;
    hide SameLiveName;
    hide LiveCount;
    AppendRootChains(rows, row);
    forall company ensures LiveCount(rows + [row], company) <= CAP {
      CountOfAppend(rows, row, company);
    }
  }

  /** Revocation touches no link. */
  ghost predicate OnlyRevokes(before: seq<Row>, after: seq<Row>) {
    |before| == |after| && forall i :: 0 <= i < |before| ==> after[i] == before[i] || after[i] == before[i].(revoked := true)
  }

  lemma RevokingKeeps(before: seq<Row>, after: seq<Row>)
    requires Chained(before) && NamesDiffer(before) && OnlyRevokes(before, after)
    ensures Chained(after) && NamesDiffer(after)
  {
    forall i: nat, j: nat ensures Follows(after, i, j) <==> Follows(before, i, j) {}
    assert Rooted(after) by {
      forall j | 0 <= j < |after| && after[j].lineage != j ensures exists i: nat :: Follows(after, i, j) {
        var i: nat :| Follows(before, i, j);
        assert Follows(after, i, j);
      }
    }
    forall i, j | 0 <= i < j < |after| ensures !SameLiveName(after[i], after[j]) {
      assert !SameLiveName(before[i], before[j]);
    }
  }

  function Rotated(rows: seq<Row>, id: nat, began: int, graceUntil: int): seq<Row>
    requires id < |rows|
  {
    rows[id := Superseded(rows[id], |rows|, graceUntil)] + [Replacement(rows[id], began)]
  }

  lemma RotationFollows(rows: seq<Row>, id: nat, began: int, graceUntil: int)
    requires id < |rows| && rows[id].supersededBy == None
    ensures forall i: nat, j: nat :: Follows(Rotated(rows, id, began, graceUntil), i, j) <==>
                                     Follows(rows, i, j) || (i == id && j == |rows|)
  {
    var after := Rotated(rows, id, began, graceUntil);
    forall i: nat | i < |rows|
      ensures after[i] == if i == id then Superseded(rows[id], |rows|, graceUntil) else rows[i]
    {
    }
    assert after[|rows|] == Replacement(rows[id], began);
  }

  lemma RotationLinks(rows: seq<Row>, id: nat, began: int, graceUntil: int)
    requires Chained(rows) && id < |rows| && Live(rows[id])
    ensures Chained(Rotated(rows, id, began, graceUntil))
  {
    var after := Rotated(rows, id, began, graceUntil);
    RotationFollows(rows, id, began, graceUntil);
    forall i: nat | i < |rows|
      ensures after[i] == if i == id then Superseded(rows[id], |rows|, graceUntil) else rows[i]
    {
    }
    assert after[|rows|] == Replacement(rows[id], began);
    RotationRooted(rows, after, id);
    RotationOneHead(rows, after, id);
    hide Follows;
    hide OneHead;
    hide Rooted;
  }

  lemma RotationOneHead(rows: seq<Row>, after: seq<Row>, id: nat)
    requires OneHead(rows) && id < |rows| && |after| == |rows| + 1 && rows[id].supersededBy == None
    requires forall i :: 0 <= i < |rows| && i != id ==> after[i] == rows[i]
    requires after[id].supersededBy.Some? && after[id].lineage == rows[id].lineage == after[|rows|].lineage
    ensures OneHead(after)
  {
    assert forall k | 0 <= k < |rows| && k != id && rows[k].lineage == rows[id].lineage :: rows[k].supersededBy.Some?;
  }

  lemma RotationRooted(rows: seq<Row>, after: seq<Row>, id: nat)
    requires Rooted(rows) && id < |rows| && |after| == |rows| + 1
    requires forall i :: 0 <= i < |rows| ==> after[i].lineage == rows[i].lineage
    requires after[|rows|].lineage == rows[id].lineage && Follows(after, id, |rows|)
    requires forall i: nat, j: nat :: Follows(rows, i, j) ==> Follows(after, i, j)
    ensures Rooted(after)
  {
    forall j | 0 <= j < |rows| && after[j].lineage != j ensures exists i: nat :: Follows(after, i, j) {
      var i: nat :| Follows(rows, i, j);
      assert Follows(after, i, j);
    }
  }

  lemma RotationKeepsNamesAndCount(rows: seq<Row>, id: nat, began: int, graceUntil: int)
    requires NamesDiffer(rows) && id < |rows| && Live(rows[id])
    ensures NamesDiffer(Rotated(rows, id, began, graceUntil))
    ensures NameFree(rows[id := Superseded(rows[id], |rows|, graceUntil)], Replacement(rows[id], began))
    ensures forall company :: LiveCount(Rotated(rows, id, began, graceUntil), company) == LiveCount(rows, company)
  {
    hide ToLower;
    var updated := rows[id := Superseded(rows[id], |rows|, graceUntil)];
    var row := Replacement(rows[id], began);
    forall i | 0 <= i < |rows| ensures !SameLiveName(updated[i], row) {
      if i < id {
        assert !SameLiveName(rows[i], rows[id]);
      } else if i > id {
        assert !SameLiveName(rows[id], rows[i]);
      }
    }
    forall i, j | 0 <= i < j < |rows| ensures !SameLiveName(updated[i], updated[j]) {
      assert !SameLiveName(rows[i], rows[j]);
    }
    forall company ensures LiveCount(Rotated(rows, id, began, graceUntil), company) == LiveCount(rows, company) {
      CountOfUpdate(rows, id, Superseded(rows[id], |rows|, graceUntil), company);
      CountOfAppend(updated, row, company);
    }
  }

  // ---- Steps keep the invariant --------------------------------------------------------------

  lemma IssueKeeps(db: Db, t: nat)
    requires Inv(db) && t in db.txs && db.txs[t].Issuing? && db.txs[t].counted
    ensures Inv(CommitIssueStep(db, t))
  {
    hide LiveCount;
    hide Chained;
    hide NamesDiffer;
    hide NameFree;
    hide ValidTerms;
    var row := Issued(db.txs[t], |db.rows|);
    var after := CommitIssueStep(db, t);
    if NameFree(db.rows, row) && ExpiryAllowed(row) {
      AppendRoot(db.rows, row);
      forall u | u in after.txs && after.txs[u].Issuing? && after.txs[u].counted
        ensures LiveCount(after.rows, after.txs[u].company) < CAP
      {
        assert Locks(db.txs[t], row.company) && Locks(db.txs[u], db.txs[u].company);
        CountOfAppend(db.rows, row, after.txs[u].company);
      }
    }
  }

  lemma RotateKeeps(db: Db, t: nat)
    requires Inv(db) && t in db.txs && db.txs[t].Rotating? && db.txs[t].held && db.txs[t].id < |db.rows|
    ensures Inv(CommitRotateStep(db, t))
  {
    hide LiveCount;
    hide Chained;
    hide NamesDiffer;
    hide NameFree;
    hide ValidTerms;
    var tx := db.txs[t];
    var graceUntil := db.now + if tx.grace < 0 then 0 else tx.grace;
    assert MayHold(db, t);
    var after := CommitRotateStep(db, t);
    if ExpiryAllowed(Replacement(db.rows[tx.id], tx.began)) {
      RotationKeepsNamesAndCount(db.rows, tx.id, tx.began, graceUntil);
      RotationLinks(db.rows, tx.id, tx.began, graceUntil);
      assert after.rows == Rotated(db.rows, tx.id, tx.began, graceUntil);
      forall u | u in after.txs && after.txs[u].Rotating? && after.txs[u].held ensures MayHold(after, u) {
        assert MayHold(db, u);
        assert Locks(db.txs[t], tx.company) && Locks(db.txs[u], db.txs[u].company);
      }
    }
  }

  lemma RevocationKeeps(db: Db, after: Db)
    requires Inv(db) && after.txs.Keys <= db.txs.Keys && forall u :: u in after.txs ==> after.txs[u] == db.txs[u]
    requires OnlyRevokes(db.rows, after.rows)
    requires forall company :: LiveCount(after.rows, company) <= LiveCount(db.rows, company)
    requires forall u :: u in after.txs && after.txs[u].Rotating? && after.txs[u].held && after.txs[u].id < |db.rows| ==>
               after.rows[after.txs[u].id] == db.rows[after.txs[u].id]
    ensures Inv(after)
  {
    hide LiveCount;
    hide Chained;
    hide NamesDiffer;
    hide ValidTerms;
    RevokingKeeps(db.rows, after.rows);
    forall u | u in after.txs && after.txs[u].Rotating? && after.txs[u].held ensures MayHold(after, u) {
      assert MayHold(db, u);
    }
  }

  lemma StepKeeps(db: Db, s: Step)
    requires Inv(db)
    ensures Inv(Next(db, s))
  {
    hide LiveCount;
    hide Chained;
    hide NamesDiffer;
    hide ValidTerms;
    hide CommitIssueStep;
    hide CommitRotateStep;
    match s
    case CommitIssue(t) =>
      if t in db.txs && db.txs[t].Issuing? && db.txs[t].counted { IssueKeeps(db, t); }
    case CommitRotate(t) =>
      if t in db.txs && db.txs[t].Rotating? && db.txs[t].held && db.txs[t].id < |db.rows| { RotateKeeps(db, t); }
    case Revoke(company, id) =>
      if Next(db, s) != db {
        forall c ensures LiveCount(Next(db, s).rows, c) <= LiveCount(db.rows, c) {
          CountOfUpdate(db.rows, id, db.rows[id].(revoked := true), c);
        }
        RevocationKeeps(db, Next(db, s));
      }
    case EndRevokeAll(t) =>
      if Next(db, s) != db {
        forall c ensures LiveCount(Next(db, s).rows, c) <= LiveCount(db.rows, c) {
          CountOfRevoked(db.rows, db.txs[t].company, db.txs[t].seen, c);
        }
        RevocationKeeps(db, Next(db, s));
      }
    case _ => TransactionKeeps(db, s);
  }

  /** The steps that change no row. */
  lemma TransactionKeeps(db: Db, s: Step)
    requires Inv(db)
    requires !s.CommitIssue? && !s.CommitRotate? && !s.Revoke? && !s.EndRevokeAll?
    ensures Inv(Next(db, s))
  {
    hide LiveCount;
    hide Chained;
    hide NamesDiffer;
    hide UnderCap;
    hide ValidTerms;
    hide CommitIssueStep;
    hide CommitRotateStep;
    hide RevokeSeen;
    var after := Next(db, s);
    assert after.rows == db.rows;
    forall u | u in after.txs && after.txs[u].Rotating? && after.txs[u].held ensures MayHold(after, u) {
      if u in db.txs && db.txs[u] == after.txs[u] { assert MayHold(db, u); }
    }
  }

  lemma {:induction false} RunKeeps(db: Db, steps: seq<Step>)
    requires Inv(db)
    ensures Inv(Run(db, steps))
    decreases |steps|
  {
    if steps != [] {
      StepKeeps(db, steps[0]);
      RunKeeps(Next(db, steps[0]), steps[1..]);
    }
  }

  lemma StartKeeps(now: int)
    ensures Inv(Start(now))
  {
  }

  // ---- The cap ----------------------------------------------------------------------------------

  /** However issues, rotations and revocations interleave, a company never holds more than the cap. */
  lemma NeverAboveTheCap(now: int, steps: seq<Step>, company: int)
    ensures |LiveRows(Run(Start(now), steps).rows, company)| <= 20
  {
    StartKeeps(now);
    RunKeeps(Start(now), steps);
    LiveCountIsSize(Run(Start(now), steps).rows, company);
  }

  /**
   * A rotation that holds its row commits exactly when the credential had not expired when the
   * transaction began, whatever the count: its name is free and it takes no new slot. (The
   * expiry CHECK compares with the transaction's own start, so an expired credential cannot be
   * rotated.)
   */
  lemma RotationCommitsExactlyWhenUnexpired(db: Db, t: nat)
    requires Inv(db) && t in db.txs && db.txs[t].Rotating? && db.txs[t].held && db.txs[t].id < |db.rows|
    ensures var tx, after := db.txs[t], Next(db, CommitRotate(t));
            && (|after.rows| == |db.rows| + 1 <==> Unexpired(db.rows[tx.id], tx.began))
            && (after.rows != db.rows <==> Unexpired(db.rows[tx.id], tx.began))
            && forall company :: LiveCount(after.rows, company) == LiveCount(db.rows, company)
  {
    hide LiveCount;
    hide NameFree;
    hide Chained;
    hide NamesDiffer;
    var tx := db.txs[t];
    assert MayHold(db, t);
    RotationKeepsNamesAndCount(db.rows, tx.id, tx.began, db.now + if tx.grace < 0 then 0 else tx.grace);
  }

  // ---- What was asked for ------------------------------------------------------------------------

  /** Some issue of a run asked for these terms, up to blanks around the name. */
  ghost predicate AskedFor(steps: seq<Step>, company: int, terms: Terms, expiresAt: Option<int>) {
    exists k | 0 <= k < |steps| :: Asks(steps[k], company, terms, expiresAt)
  }

  predicate Asks(s: Step, company: int, terms: Terms, expiresAt: Option<int>) {
    && s.BeginIssue? && s.company == company && s.expiresAt == expiresAt
    && terms.environment == s.terms.environment && terms.scopes == s.terms.scopes && terms.sites == s.terms.sites
    && terms.name == TrimSpace(s.terms.name)
  }

  ghost predicate Traced(db: Db, steps: seq<Step>) {
    && (forall i | 0 <= i < |db.rows| :: AskedFor(steps, db.rows[i].company, db.rows[i].terms, db.rows[i].expiresAt))
    && (forall t | t in db.txs && db.txs[t].Issuing? ::
          AskedFor(steps, db.txs[t].company, db.txs[t].terms.(name := TrimSpace(db.txs[t].terms.name)), db.txs[t].expiresAt))
  }

  lemma AskedFurther(steps: seq<Step>, s: Step, company: int, terms: Terms, expiresAt: Option<int>)
    requires AskedFor(steps, company, terms, expiresAt)
    ensures AskedFor(steps + [s], company, terms, expiresAt)
  {
    var k :| 0 <= k < |steps| && Asks(steps[k], company, terms, expiresAt);
    assert (steps + [s])[k] == steps[k];
  }

  lemma StepTraces(db: Db, steps: seq<Step>, s: Step)
    requires Traced(db, steps)
    ensures Traced(Next(db, s), steps + [s])
  {
    hide LiveCount;
    hide NameFree;
    hide TrimSpace;
    hide ValidTerms;
    var more := steps + [s];
    assert more[|steps|] == s;
    if s.BeginIssue? {
      assert Asks(more[|steps|], s.company, s.terms.(name := TrimSpace(s.terms.name)), s.expiresAt);
    }
    forall company, terms, expiresAt | AskedFor(steps, company, terms, expiresAt) ensures AskedFor(more, company, terms, expiresAt) {
      AskedFurther(steps, s, company, terms, expiresAt);
    }
    hide Asks;
    assert BeginAsks(more, s) by { if s.BeginIssue? { assert AskedFor(more, s.company, s.terms.(name := TrimSpace(s.terms.name)), s.expiresAt); } }
    hide AskedFor;
  }

  ghost predicate BeginAsks(steps: seq<Step>, s: Step) {
    s.BeginIssue? ==> AskedFor(steps, s.company, s.terms.(name := TrimSpace(s.terms.name)), s.expiresAt)
  }

  lemma {:induction false} RunTraces(db: Db, before: seq<Step>, steps: seq<Step>)
    requires Traced(db, before)
    ensures Traced(Run(db, steps), before + steps)
    decreases |steps|
  {
    hide Next;
    hide Traced;
    if steps == [] {
      assert before + steps == before;
    } else {
      StepTraces(db, before, steps[0]);
      RunTraces(Next(db, steps[0]), before + [steps[0]], steps[1..]);
      assert before + [steps[0]] + steps[1..] == before + steps;
    }
  }

  /** A rotation hands on what its credential had, so a lineage has the terms of its root. */
  lemma {:induction false} LineageKeepsTerms(rows: seq<Row>, i: nat)
    requires Chained(rows) && i < |rows|
    ensures rows[i].lineage < |rows|
    ensures var root := rows[rows[i].lineage];
            rows[i].terms == root.terms && rows[i].company == root.company && rows[i].expiresAt == root.expiresAt
    decreases i
  {
    if rows[i].lineage != i {
      var j: nat :| Follows(rows, j, i);
      LineageKeepsTerms(rows, j);
    }
  }

  /**
   * In every run, every credential has the scopes, sites, environment, expiry and name that
   * some issue of its company asked for, and those of the root of its lineage.
   */
  lemma EveryCredentialWasAskedFor(now: int, steps: seq<Step>, i: nat)
    requires i < |Run(Start(now), steps).rows|
    ensures var rows := Run(Start(now), steps).rows;
            && AskedFor(steps, rows[i].company, rows[i].terms, rows[i].expiresAt)
            && rows[i].lineage < |rows|
            && rows[i].terms == rows[rows[i].lineage].terms && rows[i].expiresAt == rows[rows[i].lineage].expiresAt
  {
    StartKeeps(now);
    RunKeeps(Start(now), steps);
    RunTraces(Start(now), [], steps);
    assert [] + steps == steps;
    LineageKeepsTerms(Run(Start(now), steps).rows, i);
  }

  // ---- Lineages -------------------------------------------------------------------------------------

  /** The rows reached from i by following superseded_by. */
  ghost function Chain(rows: seq<Row>, i: nat): seq<nat>
    requires LinksForward(rows) && i < |rows|
    decreases |rows| - i
  {
    if rows[i].supersededBy == None then [i]
    else
      assert Follows(rows, i, rows[i].supersededBy.value);
      [i] + Chain(rows, rows[i].supersededBy.value)
  }

  lemma {:induction false} ChainShape(rows: seq<Row>, i: nat)
    requires LinksForward(rows) && i < |rows|
    ensures var c := Chain(rows, i);
            && c != [] && c[0] == i
            && (forall k :: 0 <= k < |c| ==> i <= c[k] < |rows| && rows[c[k]].lineage == rows[i].lineage)
            && (forall k :: 0 <= k < |c| - 1 ==> Follows(rows, c[k], c[k + 1]))
            && rows[c[|c| - 1]].supersededBy == None
    decreases |rows| - i
  {
    if rows[i].supersededBy.Some? {
      assert Follows(rows, i, rows[i].supersededBy.value);
      ChainShape(rows, rows[i].supersededBy.value);
    }
  }

  lemma SuccessorInChain(rows: seq<Row>, root: nat, i: nat, j: nat)
    requires LinksForward(rows) && root < |rows| && i in Chain(rows, root) && Follows(rows, i, j)
    ensures j in Chain(rows, root)
  {
    ChainShape(rows, root);
    var c := Chain(rows, root);
    var k :| 0 <= k < |c| && c[k] == i;
    assert k < |c| - 1;
    assert c[k + 1] == j;
  }

  lemma {:induction false} RowIsInItsChain(rows: seq<Row>, j: nat)
    requires Chained(rows) && j < |rows|
    ensures rows[rows[j].lineage].lineage == rows[j].lineage
    ensures j in Chain(rows, rows[j].lineage)
  {
    if rows[j].lineage == j {
      ChainShape(rows, j);
    } else {
      var i: nat :| Follows(rows, i, j);
      RowIsInItsChain(rows, i);
      SuccessorInChain(rows, rows[j].lineage, i, j);
    }
  }

  /**
   * A lineage is one chain: from its root, superseded_by visits every row of the lineage once,
   * in increasing order, and ends at its only row that is not superseded.
   */
  lemma LineageIsOneChain(rows: seq<Row>, root: nat)
    requires Chained(rows) && root < |rows| && rows[root].lineage == root
    ensures var c := Chain(rows, root);
            && c != [] && c[0] == root
            && (forall j :: j in c <==> 0 <= j < |rows| && rows[j].lineage == root)
            && (forall k :: 0 <= k < |c| - 1 ==> c[k] < c[k + 1] && Follows(rows, c[k], c[k + 1]))
            && (forall j :: 0 <= j < |rows| && rows[j].lineage == root ==> (rows[j].supersededBy == None <==> j == c[|c| - 1]))
  {
    var c := Chain(rows, root);
    ChainShape(rows, root);
    forall j: nat | j < |rows| && rows[j].lineage == root ensures j in c {
      RowIsInItsChain(rows, j);
    }
    assert rows[c[|c| - 1]].lineage == root;
  }

  lemma EveryRunHasSingleChains(now: int, steps: seq<Step>, j: nat)
    requires j < |Run(Start(now), steps).rows|
    ensures var rows := Run(Start(now), steps).rows;
            && Chained(rows) && rows[rows[j].lineage].lineage == rows[j].lineage && j in Chain(rows, rows[j].lineage)
  {
    StartKeeps(now);
    RunKeeps(Start(now), steps);
    RowIsInItsChain(Run(Start(now), steps).rows, j);
  }

  // ---- Stopped means stopped --------------------------------------------------------------------------

  lemma StepKeepsOut(db: Db, s: Step, id: nat)
    requires Inv(db) && id < |db.rows| && !Authenticates(db.rows[id], db.now)
    ensures id < |Next(db, s).rows| && !Authenticates(Next(db, s).rows[id], Next(db, s).now)
  {
    hide LiveCount;
    hide Chained;
    hide NamesDiffer;
    hide NameFree;
    if s.CommitRotate? && s.t in db.txs && db.txs[s.t].Rotating? && db.txs[s.t].held {
      assert MayHold(db, s.t);
    }
  }

  /** A credential that has stopped authenticating never authenticates again, whatever happens next. */
  lemma {:induction false} StoppedStaysStopped(db: Db, steps: seq<Step>, id: nat)
    requires Inv(db) && id < |db.rows| && !Authenticates(db.rows[id], db.now)
    ensures id < |Run(db, steps).rows| && !Authenticates(Run(db, steps).rows[id], Run(db, steps).now)
    decreases |steps|
  {
    if steps != [] {
      StepKeeps(db, steps[0]);
      StepKeepsOut(db, steps[0], id);
      StoppedStaysStopped(Next(db, steps[0]), steps[1..], id);
    }
  }

  // ---- Revoking everything ------------------------------------------------------------------------------

  ghost predicate NothingAuthenticates(db: Db, company: int) {
    forall i :: 0 <= i < |db.rows| && db.rows[i].company == company ==> !Authenticates(db.rows[i], db.now)
  }

  ghost predicate AllRevoked(db: Db, company: int) {
    forall i :: 0 <= i < |db.rows| && db.rows[i].company == company ==> db.rows[i].revoked
  }

  /** A step that ends transaction t. */
  predicate Finishes(s: Step, t: nat) { s == EndRevokeAll(t) || s == Abort(t) }

  lemma {:induction false} SnapshotWaits(db: Db, steps: seq<Step>, t: nat)
    requires t in db.txs && db.txs[t].RevokingAll?
    requires forall s :: s in steps ==> !Finishes(s, t)
    ensures t in Run(db, steps).txs && Run(db, steps).txs[t] == db.txs[t]
    ensures |Run(db, steps).rows| >= |db.rows|
    decreases |steps|
  {
    hide LiveCount;
    hide NameFree;
    if steps != [] {
      assert !Finishes(steps[0], t);
      SnapshotWaits(Next(db, steps[0]), steps[1..], t);
    }
  }

  /**
   * Revoke-all reads its rows in one snapshot and takes no company lock. Whatever commits while
   * it waits, afterwards nothing in the company authenticates exactly when no row added since
   * the snapshot did.
   */
  lemma RevokeAllMissesExactlyLaterRows(db: Db, t: nat, company: int, steps: seq<Step>)
    requires t !in db.txs && forall s :: s in steps ==> !Finishes(s, t)
    requires NoneHeld(Run(Next(db, BeginRevokeAll(t, company)), steps), company, |db.rows|)
    ensures var before := Run(Next(db, BeginRevokeAll(t, company)), steps);
            NothingAuthenticates(Next(before, EndRevokeAll(t)), company) <==>
            forall i :: |db.rows| <= i < |before.rows| && before.rows[i].company == company ==>
                          !Authenticates(before.rows[i], before.now)
  {
    var started := Next(db, BeginRevokeAll(t, company));
    SnapshotWaits(started, steps, t);
    var before := Run(started, steps);
    var after := Next(before, EndRevokeAll(t));
    assert after.rows == RevokeSeen(before.rows, company, |db.rows|);
    forall i | 0 <= i < |before.rows| && before.rows[i].company == company
      ensures Authenticates(after.rows[i], after.now) <==> |db.rows| <= i && Authenticates(before.rows[i], before.now)
    {
    }
  }

  /** As one step, revoke-all leaves nothing in the company that authenticates. */
  lemma RevokeAllRevokesAll(db: Db, t: nat, company: int)
    requires t !in db.txs && NoneHeld(db, company, |db.rows|)
    ensures AllRevoked(Next(Next(db, BeginRevokeAll(t, company)), EndRevokeAll(t)), company)
  {
    var started := Next(db, BeginRevokeAll(t, company));
    assert NoneHeld(started, company, |db.rows|);
  }

  /** A rotation that commits while revoke-all waits always escapes it: the replacement goes on working. */
  lemma RotationEscapesRevokeAll(db: Db, t: nat, u: nat, company: int, id: nat, grace: nat)
    requires Inv(db) && t !in db.txs && u !in db.txs && t != u && LockFree(db.txs, company) && grace <= MAX_GRACE
    requires id < |db.rows| && db.rows[id].company == company && Live(db.rows[id]) && Unexpired(db.rows[id], db.now)
    requires NoneHeld(db, company, |db.rows|)
    ensures var after := Run(db, [BeginRevokeAll(t, company), BeginRotate(u, company, id, grace), Hold(u),
                                  CommitRotate(u), EndRevokeAll(t)]);
            !NothingAuthenticates(after, company)
  {
    hide LiveCount;
    hide Chained;
    hide NamesDiffer;
    hide NameFree;
    hide ToLower;
    var d1 := Next(db, BeginRevokeAll(t, company));
    StepKeeps(db, BeginRevokeAll(t, company));
    var d2 := Next(d1, BeginRotate(u, company, id, grace));
    StepKeeps(d1, BeginRotate(u, company, id, grace));
    var d3 := Next(d2, Hold(u));
    assert d2.txs[u] == Rotating(company, db.now, id, grace, false) && d2.rows == db.rows;
    assert MayHold(d2, u);
    StepKeeps(d2, Hold(u));
    RotationCommitsExactlyWhenUnexpired(d3, u);
    var d4 := Next(d3, CommitRotate(u));
    ReplacementEscapes(d3, t, u, company, |db.rows|);
    FiveSteps(db, BeginRevokeAll(t, company), BeginRotate(u, company, id, grace), Hold(u), CommitRotate(u), EndRevokeAll(t));
  }

  lemma ReplacementEscapes(db: Db, t: nat, u: nat, company: int, seen: nat)
    requires t in db.txs && db.txs[t] == RevokingAll(company, seen) && seen == |db.rows|
    requires u in db.txs && u != t && db.txs[u].Rotating? && db.txs[u].held && db.txs[u].id < |db.rows|
    requires db.rows[db.txs[u].id].company == company && Unexpired(db.rows[db.txs[u].id], db.now)
    requires forall v :: v in db.txs && v != u && db.txs[v].Rotating? && db.txs[v].held ==> db.txs[v].company != company
    requires |Next(db, CommitRotate(u)).rows| == |db.rows| + 1
    ensures !NothingAuthenticates(Next(Next(db, CommitRotate(u)), EndRevokeAll(t)), company)
  {
    hide NameFree;
    var d4 := Next(db, CommitRotate(u));
    var d5 := Next(d4, EndRevokeAll(t));
    assert d4.rows[seen] == Replacement(db.rows[db.txs[u].id], db.txs[u].began);
    assert d5.rows[seen] == d4.rows[seen] && Authenticates(d5.rows[seen], d5.now);
  }

  lemma FiveSteps(db: Db, a: Step, b: Step, c: Step, d: Step, e: Step)
    ensures Run(db, [a, b, c, d, e]) == Next(Next(Next(Next(Next(db, a), b), c), d), e)
  {
    hide Next;
    assert [a, b, c, d, e][1..] == [b, c, d, e] && [b, c, d, e][1..] == [c, d, e];
    assert [c, d, e][1..] == [d, e] && [d, e][1..] == [e] && [e][1..] == [];
    assert Run(Next(Next(Next(db, a), b), c), [d, e]) == Next(Next(Next(Next(Next(db, a), b), c), d), e) by {
      var x := Next(Next(Next(db, a), b), c);
      assert Run(x, [d, e]) == Run(Next(x, d), [e]);
    }
    assert Run(db, [a, b, c, d, e]) == Run(Next(db, a), [b, c, d, e]);
    assert Run(Next(db, a), [b, c, d, e]) == Run(Next(Next(db, a), b), [c, d, e]);
  }

  /** A commit of an issue for the company. */
  predicate Issues(db: Db, s: Step, company: int) {
    s.CommitIssue? && s.t in db.txs && db.txs[s.t].company == company
  }

  ghost predicate NoIssueIn(db: Db, steps: seq<Step>, company: int)
    decreases |steps|
  {
    steps == [] || (!Issues(db, steps[0], company) && NoIssueIn(Next(db, steps[0]), steps[1..], company))
  }

  lemma StepStaysRevoked(db: Db, s: Step, company: int)
    requires Inv(db) && AllRevoked(db, company) && !Issues(db, s, company)
    ensures AllRevoked(Next(db, s), company)
  {
    hide LiveCount;
    hide Chained;
    hide NamesDiffer;
    hide NameFree;
    if s.CommitRotate? && s.t in db.txs && db.txs[s.t].Rotating? && db.txs[s.t].held {
      assert MayHold(db, s.t);
    }
  }

  /** Once everything is revoked, nothing in the company authenticates until a new issue commits. */
  lemma {:induction false} QuietUntilNextIssue(db: Db, steps: seq<Step>, company: int)
    requires Inv(db) && AllRevoked(db, company) && NoIssueIn(db, steps, company)
    ensures AllRevoked(Run(db, steps), company) && NothingAuthenticates(Run(db, steps), company)
    decreases |steps|
  {
    if steps != [] {
      StepKeeps(db, steps[0]);
      StepStaysRevoked(db, steps[0], company);
      QuietUntilNextIssue(Next(db, steps[0]), steps[1..], company);
    }
  }
}
