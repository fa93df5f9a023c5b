/**
 * Confirmed actions (assistant/confirm.go, assistant/dispatch.go, assistant/loop.go,
 * database/assistant.go): a consequential tool stores its checked arguments and asks; any
 * number of settlements may then race for the answer.
 *
 * A hash is taken to be injective, so a hash of arguments is those arguments.
 */
module Confirmations {
  import opened Options
  import opened Text
  import opened ToolArguments

  const TTL := 300

  /** `confirms` says the tool has a Confirm; minRole is a rank. */
  datatype Tool = Tool(params: seq<Param>, confirms: bool, minRole: nat)

  type Registry = map<string, Tool>

  /** The operator's user, session and conversation. */
  datatype Owner = Owner(userId: int, sessionId: int, conversationId: int)

  datatype Verdict = Approved | Rejected | Lapsed

  /** A stored confirmation. `planned` records whether Confirm returned a plan for it; it is not a column. */
  datatype Row = Row(tool: string, args: Args, hash: Args, owner: Owner, phrase: string, expiresAt: int,
                     outcome: Option<Verdict>, planned: bool)

  /** A tool that ran: with what, under which confirmation, and whether its Confirm returned a plan for that call. */
  datatype RunLog = RunLog(tool: string, args: Args, approvedBy: Option<nat>, planned: bool)

  datatype ConfirmError = Invalid | Mismatch | Settled | ExpiredError | WrongPhrase

  /** verifyConfirmation's checks in their order; it does not consume the row. */
  function VerifyError(rows: seq<Row>, id: nat, owner: Owner, phrase: string, now: int): Option<ConfirmError> {
    if id >= |rows| then Some(Invalid)
    else if rows[id].owner != owner then Some(Mismatch)
    else if rows[id].outcome.Some? then Some(Settled)
    else if now > rows[id].expiresAt then Some(ExpiredError)
    else if rows[id].phrase != "" && TrimSpace(phrase) != rows[id].phrase then Some(WrongPhrase)
    else None
  }

  /** Open, the operator's own, inside its window, and the phrase typed if one was asked for. */
  ghost predicate Confirmable(rows: seq<Row>, id: nat, owner: Owner, phrase: string, now: int) {
    && id < |rows| && rows[id].owner == owner && rows[id].outcome == None && now <= rows[id].expiresAt
    && (rows[id].phrase != "" ==> TrimSpace(phrase) == rows[id].phrase)
  }

  lemma ConfirmableIs(rows: seq<Row>, id: nat, owner: Owner, phrase: string, now: int)
    ensures VerifyError(rows, id, owner, phrase, now) == None <==> Confirmable(rows, id, owner, phrase, now)
  {
    hide TrimSpace;
  }

  /** UPDATE ... WHERE consumed_at IS NULL. */
  function SettleRow(rows: seq<Row>, id: nat, outcome: Verdict): Option<seq<Row>> {
    if id < |rows| && rows[id].outcome == None then Some(rows[id := rows[id].(outcome := Some(outcome))]) else None
  }

  /** What a tool's Confirm makes of a call: nothing to confirm, a plan to show, or an error. */
  datatype Plan = NoPlan | HasPlan | NotPrepared

  /** What Execute does with a call it was not given a confirmation for. */
  datatype FreshOutcome = RefusedCall | Asks(args: Args) | Runs(args: Args)

  function Fresh(registry: Registry, role: nat, name: string, raw: Raw, plan: Plan): FreshOutcome {
    if name !in registry || role < registry[name].minRole then RefusedCall
    else
      match Validated(registry[name].params, raw)
      case Err(_) => RefusedCall
      case Ok(args) =>
        if !registry[name].confirms || plan == NoPlan then Runs(args)
        else if plan == HasPlan then Asks(args) else RefusedCall
  }

  /** And with one it was: the stored arguments, checked again and compared with what was shown. */
  function Confirmed(registry: Registry, role: nat, row: Row): Option<Args> {
    if row.tool !in registry || role < registry[row.tool].minRole then None
    else
      match Validated(registry[row.tool].params, Object(row.args))
      case Err(_) => None
      case Ok(args) => if row.hash == args then Some(args) else None
  }

  // ---- Racing settlements ---------------------------------------------------------------------

  /** Verified, or winner of the update and about to run. */
  datatype Settler = Checked(id: nat, approve: bool, role: nat) | Won(id: nat, role: nat) | Over

  datatype Sys = Sys(now: int, registry: Registry, rows: seq<Row>, settlers: map<nat, Settler>, runs: seq<RunLog>)

  datatype Step =
    | Tick(elapsed: nat)
    | Call(owner: Owner, role: nat, name: string, raw: Raw, plan: Plan, phrase: string)
    | Verify(s: nat, id: nat, owner: Owner, settlerRole: nat, given: string, approve: bool)
    | Settle(s: nat)
    | RunApproved(s: nat)
    | Lapse(id: nat)

  /** The fact about a call that matters: its tool has a Confirm, and Confirm returned a plan. */
  predicate Planned(registry: Registry, name: string, plan: Plan) {
    name in registry && registry[name].confirms && plan == HasPlan
  }

  function Next(y: Sys, step: Step): Sys {
    match step
    case Tick(elapsed) => y.(now := y.now + elapsed)
    case Call(owner, role, name, raw, plan, phrase) =>
      var planned := Planned(y.registry, name, plan);
      (match Fresh(y.registry, role, name, raw, plan)
       case RefusedCall => y
       case Asks(args) => y.(rows := y.rows + [Row(name, args, args, owner, phrase, y.now + TTL, None, planned)])
       case Runs(args) => y.(runs := y.runs + [RunLog(name, args, None, planned)]))
    case Verify(s, id, owner, role, given, approve) =>
      if s !in y.settlers && VerifyError(y.rows, id, owner, given, y.now) == None
      then y.(settlers := y.settlers[s := Checked(id, approve, role)]) else y
    case Settle(s) =>
      if s !in y.settlers || !y.settlers[s].Checked? then y
      else
        var id, approve := y.settlers[s].id, y.settlers[s].approve;
        (match SettleRow(y.rows, id, if approve then Approved else Rejected)
         case None => y.(settlers := y.settlers[s := Over])
         case Some(rows) => y.(rows := rows, settlers := y.settlers[s := if approve then Won(id, y.settlers[s].role) else Over]))
    case RunApproved(s) =>
      if s !in y.settlers || !y.settlers[s].Won? || y.settlers[s].id >= |y.rows| then y
      else
        var row := y.rows[y.settlers[s].id];
        var over := y.settlers[s := Over];
        (match Confirmed(y.registry, y.settlers[s].role, row)
         case None => y.(settlers := over)
         case Some(args) => y.(settlers := over, runs := y.runs + [RunLog(row.tool, args, Some(y.settlers[s].id), row.planned)]))
    case Lapse(id) =>
      if id < |y.rows| && y.now > y.rows[id].expiresAt then
        (match SettleRow(y.rows, id, Lapsed)
         case None => y
         case Some(rows) => y.(rows := rows))
      else y
  }

  function Run(y: Sys, steps: seq<Step>): Sys
    decreases |steps|
  {
    if steps == [] then y else Run(Next(y, steps[0]), steps[1..])
  }

  // ---- The invariant ----------------------------------------------------------------------------

  /** A stored confirmation holds arguments its tool accepted, as they were returned. */
  ghost predicate Shown(registry: Registry, row: Row) {
    row.tool in registry && row.hash == row.args && row.planned && registry[row.tool].confirms
    && Validated(registry[row.tool].params, Object(row.args)) == Ok(row.args)
  }

  ghost predicate Rows(y: Sys) {
    forall i :: 0 <= i < |y.rows| ==> Shown(y.registry, y.rows[i])
  }

  /** A winner's row is approved, is its alone, and has not run. */
  ghost predicate Winners(y: Sys) {
    && (forall s :: s in y.settlers && y.settlers[s].Won? ==>
          y.settlers[s].id < |y.rows| && y.rows[y.settlers[s].id].outcome == Some(Approved)
          && forall k :: 0 <= k < |y.runs| ==> y.runs[k].approvedBy != Some(y.settlers[s].id))
    && (forall s, u | s in y.settlers && u in y.settlers && y.settlers[s].Won? && y.settlers[u].Won? ::
          y.settlers[s].id == y.settlers[u].id ==> s == u)
  }

  ghost predicate RunIsApproved(y: Sys, k: nat)
    requires k < |y.runs|
  {
    var r := y.runs[k];
    && (r.approvedBy == None ==> !r.planned)
    && (r.approvedBy.Some? ==>
          r.approvedBy.value < |y.rows|
          && var row := y.rows[r.approvedBy.value];
             row.outcome == Some(Approved) && r.tool == row.tool && r.args == row.args && r.planned == row.planned)
  }

  ghost predicate RunsApproved(y: Sys) {
    && (forall k :: 0 <= k < |y.runs| ==> RunIsApproved(y, k))
    && (forall j, k :: 0 <= j < k < |y.runs| && y.runs[j].approvedBy.Some? ==> y.runs[j].approvedBy != y.runs[k].approvedBy)
  }

  ghost predicate Inv(y: Sys) { Rows(y) && Winners(y) && RunsApproved(y) }

  lemma CallKeeps(y: Sys, step: Step)
    requires Inv(y) && step.Call?
    ensures Inv(Next(y, step))
  {
    hide Validated;
    var after := Next(y, step);
    if step.name in y.registry && Validated(y.registry[step.name].params, step.raw).Ok? {
      ValidationIsAFixedPoint(y.registry[step.name].params, step.raw);
    }
    assert forall i :: 0 <= i < |y.rows| ==> after.rows[i] == y.rows[i];
    assert forall k :: 0 <= k < |y.runs| ==> after.runs[k] == y.runs[k];
    forall k | 0 <= k < |after.runs| ensures RunIsApproved(after, k) {
      if k < |y.runs| { assert RunIsApproved(y, k); }
    }
  }

  /** Consuming a row that nothing had consumed. */
  lemma SettlingKeeps(y: Sys, after: Sys, id: nat, outcome: Verdict)
    requires Inv(y) && id < |y.rows| && y.rows[id].outcome == None
    requires after.rows == y.rows[id := y.rows[id].(outcome := Some(outcome))]
    requires after.registry == y.registry && after.runs == y.runs
    ensures Rows(after) && RunsApproved(after)
  {
    hide Validated;
    forall i | 0 <= i < |after.rows| ensures Shown(after.registry, after.rows[i]) {
      assert Shown(y.registry, y.rows[i]);
    }
    forall k | 0 <= k < |after.runs| ensures RunIsApproved(after, k) {
      assert RunIsApproved(y, k);
    }
  }

  lemma SettleKeeps(y: Sys, s: nat)
    requires Inv(y)
    ensures Inv(Next(y, Settle(s)))
  {
    hide Validated;
    if s in y.settlers && y.settlers[s].Checked? {
      var id := y.settlers[s].id;
      var after := Next(y, Settle(s));
      if id < |y.rows| && y.rows[id].outcome == None {
        SettlingKeeps(y, after, id, if y.settlers[s].approve then Approved else Rejected);
        forall k | 0 <= k < |y.runs| ensures y.runs[k].approvedBy != Some(id) {
          assert RunIsApproved(y, k);
        }
      } else {
        assert after.rows == y.rows && after.runs == y.runs;
        forall k | 0 <= k < |after.runs| ensures RunIsApproved(after, k) {
          assert RunIsApproved(y, k);
        }
      }
    }
  }

  /** The approved run is refused for the caller's role alone: the stored arguments hash to what was shown. */
  lemma ApprovedAlwaysMatches(registry: Registry, role: nat, row: Row)
    requires Shown(registry, row)
    ensures Confirmed(registry, role, row) == if role >= registry[row.tool].minRole then Some(row.args) else None
  {
  }

  lemma RunKeepsInv(y: Sys, s: nat)
    requires Inv(y)
    ensures Inv(Next(y, RunApproved(s)))
    ensures s in y.settlers && y.settlers[s].Won? ==>
              var id := y.settlers[s].id;
              id < |y.rows| && y.rows[id].tool in y.registry
              && Next(y, RunApproved(s)).runs
                 == if y.settlers[s].role >= y.registry[y.rows[id].tool].minRole
                    then y.runs + [RunLog(y.rows[id].tool, y.rows[id].args, Some(id), true)] else y.runs
  {
    hide Validated;
    hide Confirmed;
    if s in y.settlers && y.settlers[s].Won? {
      var id := y.settlers[s].id;
      assert Shown(y.registry, y.rows[id]);
      ApprovedAlwaysMatches(y.registry, y.settlers[s].role, y.rows[id]);
      var after := Next(y, RunApproved(s));
      forall k | 0 <= k < |after.runs| ensures RunIsApproved(after, k) {
        if k < |y.runs| { assert RunIsApproved(y, k); }
      }
    }
  }

  lemma LapseKeeps(y: Sys, id: nat)
    requires Inv(y)
    ensures Inv(Next(y, Lapse(id)))
  {
    hide Validated;
    if Next(y, Lapse(id)) != y {
      SettlingKeeps(y, Next(y, Lapse(id)), id, Lapsed);
    }
  }

  lemma StepKeeps(y: Sys, step: Step)
    requires Inv(y)
    ensures Inv(Next(y, step))
  {
    match step
    case Call(_, _, _, _, _, _) => CallKeeps(y, step);
    case Settle(s) => SettleKeeps(y, s);
    case RunApproved(s) => RunKeepsInv(y, s);
    case Lapse(id) => LapseKeeps(y, id);
    case Tick(_) => SameTables(y, Next(y, step));
    case Verify(_, _, _, _, _, _) => SameTables(y, Next(y, step));
  }

  lemma SameTables(y: Sys, after: Sys)
    requires Inv(y) && after.rows == y.rows && after.runs == y.runs && after.registry == y.registry
    requires forall s :: s in after.settlers && after.settlers[s].Won? ==> s in y.settlers && y.settlers[s] == after.settlers[s]
    ensures Inv(after)
  {
    hide Validated;
    forall k | 0 <= k < |after.runs| ensures RunIsApproved(after, k) {
      assert RunIsApproved(y, k);
    }
  }

  function Start(now: int, registry: Registry): Sys { Sys(now, registry, [], map[], []) }

  lemma {:induction false} RunsKeep(y: Sys, steps: seq<Step>)
    requires Inv(y)
    ensures Inv(Run(y, steps))
    decreases |steps|
  {
    hide Next;
    hide Inv;
    if steps != [] {
      StepKeeps(y, steps[0]);
      RunsKeep(Next(y, steps[0]), steps[1..]);
    }
  }

  // ---- The theorems -----------------------------------------------------------------------------------

  /**
   * However many settlements race, a confirmation has at most one winner and runs at most once,
   * only when it was approved, and with exactly the tool and arguments the operator was shown.
   * A call whose tool's Confirm returned a plan never runs without an approved confirmation.
   */
  lemma ConfirmedActionRunsOnce(now: int, registry: Registry, steps: seq<Step>, j: nat, k: nat)
    requires var runs := Run(Start(now, registry), steps).runs; j < |runs| && k < |runs|
    ensures var y := Run(Start(now, registry), steps);
            && RunIsApproved(y, k)
            && (y.runs[k].planned <==> y.runs[k].approvedBy.Some?)
            && (y.runs[k].approvedBy.Some? ==> y.rows[y.runs[k].approvedBy.value].outcome == Some(Approved))
            && (y.runs[j].approvedBy.Some? && y.runs[j].approvedBy == y.runs[k].approvedBy ==> j == k)
            && forall s, u | s in y.settlers && u in y.settlers && y.settlers[s].Won? && y.settlers[u].Won? ::
                 y.settlers[s].id == y.settlers[u].id ==> s == u
  {
    hide Next;
    hide Validated;
    RunsKeep(Start(now, registry), steps);
    var y := Run(Start(now, registry), steps);
    assert RunIsApproved(y, k);
    if y.runs[k].approvedBy.Some? {
      assert Shown(y.registry, y.rows[y.runs[k].approvedBy.value]);
    }
  }

  /**
   * A call that its Confirm planned runs nothing: it is refused, or it leaves a confirmation
   * holding the arguments that were checked, whoever calls and in whatever state.
   */
  lemma PlannedCallOnlyAsks(y: Sys, owner: Owner, role: nat, name: string, raw: Raw, phrase: string)
    requires Inv(y) && Planned(y.registry, name, HasPlan)
    ensures var after := Next(y, Call(owner, role, name, raw, HasPlan, phrase));
            && after.runs == y.runs
            && (after != y ==>
                  Shown(y.registry, Row(name, Validated(y.registry[name].params, raw).value, Validated(y.registry[name].params, raw).value,
                                        owner, phrase, y.now + 300, None, true))
                  && after == y.(rows := y.rows + [Row(name, Validated(y.registry[name].params, raw).value,
                                                       Validated(y.registry[name].params, raw).value,
                                                       owner, phrase, y.now + 300, None, true)]))
            && (after == y <==> role < y.registry[name].minRole || Validated(y.registry[name].params, raw).Err?)
  {
    CallKeeps(y, Call(owner, role, name, raw, HasPlan, phrase));
    hide Validated;
    var after := Next(y, Call(owner, role, name, raw, HasPlan, phrase));
    if |after.rows| > |y.rows| {
      assert Shown(after.registry, after.rows[|y.rows|]);
    }
  }

  /**
   * A call that its Confirm did not plan, or whose tool has none, runs at once exactly when the
   * tool exists, the caller's role is high enough, the arguments are accepted and its Confirm
   * did not fail; nothing else runs without a confirmation.
   */
  lemma UnplannedCallRunsExactlyWhen(y: Sys, owner: Owner, role: nat, name: string, raw: Raw, plan: Plan, phrase: string)
    requires !Planned(y.registry, name, plan)
    ensures var after := Next(y, Call(owner, role, name, raw, plan, phrase));
            after == if name in y.registry && role >= y.registry[name].minRole && Validated(y.registry[name].params, raw).Ok?
                        && !(y.registry[name].confirms && plan == NotPrepared)
                     then y.(runs := y.runs + [RunLog(name, Validated(y.registry[name].params, raw).value, None, false)]) else y
  {
    hide Validated;
  }

  // ---- Who approved a run -------------------------------------------------------------------------------

  lemma {:induction false} RunOneMore(y: Sys, steps: seq<Step>, n: nat)
    requires n < |steps|
    ensures Run(y, steps[..n + 1]) == Next(Run(y, steps[..n]), steps[n])
    decreases |steps|
  {
    hide Next;
    if n == 0 {
      assert steps[..1][1..] == [] && steps[..0] == [];
    } else {
      RunOneMore(Next(y, steps[0]), steps[1..], n - 1);
      assert steps[..n + 1][1..] == steps[1..][..n] && steps[..n][1..] == steps[1..][..n - 1];
    }
  }

  /** Some earlier step checked this confirmation for its owner, while it was open, with this verdict in mind. */
  ghost predicate CheckedBefore(y: Sys, steps: seq<Step>, n: nat, id: nat, approve: bool, role: nat)
    requires n <= |steps|
  {
    exists k | 0 <= k < n ::
      && steps[k].Verify? && steps[k].id == id && steps[k].approve == approve && steps[k].settlerRole == role
      && var z := Run(y, steps[..k]); Confirmable(z.rows, id, steps[k].owner, steps[k].given, z.now)
  }

  ghost predicate Traced(y: Sys, steps: seq<Step>, n: nat)
    requires n <= |steps|
  {
    var z := Run(y, steps[..n]);
    && z.registry == y.registry
    && (forall s :: s in z.settlers && z.settlers[s].Checked? ==>
          CheckedBefore(y, steps, n, z.settlers[s].id, z.settlers[s].approve, z.settlers[s].role))
    && (forall s :: s in z.settlers && z.settlers[s].Won? ==> CheckedBefore(y, steps, n, z.settlers[s].id, true, z.settlers[s].role))
    && (forall k :: 0 <= k < |z.runs| && z.runs[k].approvedBy.Some? ==> MayHaveRun(y, steps, n, z.runs[k]))
  }

  /** Approved by the operator it was shown to, whose role was high enough for the tool. */
  ghost predicate MayHaveRun(y: Sys, steps: seq<Step>, n: nat, r: RunLog)
    requires n <= |steps| && r.approvedBy.Some?
  {
    exists role: nat :: CheckedBefore(y, steps, n, r.approvedBy.value, true, role)
                        && r.tool in y.registry && role >= y.registry[r.tool].minRole
  }

  /** Where a settler's standing and a run's approval come from. */
  lemma StandingComesFrom(z: Sys, step: Step)
    ensures var after := Next(z, step);
            && after.registry == z.registry
            && (forall s :: s in after.settlers && after.settlers[s].Checked? ==>
                  (s in z.settlers && z.settlers[s] == after.settlers[s])
                  || (step.Verify? && after.settlers[s] == Checked(step.id, step.approve, step.settlerRole)
                      && VerifyError(z.rows, step.id, step.owner, step.given, z.now) == None))
            && (forall s :: s in after.settlers && after.settlers[s].Won? ==>
                  s in z.settlers
                  && (z.settlers[s] == after.settlers[s]
                      || z.settlers[s] == Checked(after.settlers[s].id, true, after.settlers[s].role)))
            && (!step.RunApproved? ==>
                  (z.runs <= after.runs && forall k :: |z.runs| <= k < |after.runs| ==> after.runs[k].approvedBy == None))
  {
    hide Validated;
    hide VerifyError;
    hide Confirmed;
  }

  lemma TracedStep(y: Sys, steps: seq<Step>, n: nat)
    requires n < |steps| && Traced(y, steps, n) && Inv(Run(y, steps[..n]))
    ensures Traced(y, steps, n + 1)
  {
    RunOneMore(y, steps, n);
    var z, step := Run(y, steps[..n]), steps[n];
    StandingComesFrom(z, step);
    forall id, approve, role | CheckedBefore(y, steps, n, id, approve, role)
      ensures CheckedBefore(y, steps, n + 1, id, approve, role) {}
    forall r: RunLog | r.approvedBy.Some? && MayHaveRun(y, steps, n, r) ensures MayHaveRun(y, steps, n + 1, r) {
      hide CheckedBefore;
    }
    if step.Verify? {
      ConfirmableIs(z.rows, step.id, step.owner, step.given, z.now);
      if Confirmable(z.rows, step.id, step.owner, step.given, z.now) { CheckedNow(y, steps, n); }
    }
    if step.RunApproved? { RunTraced(y, steps, n, step.s); }
    hide CheckedBefore;
    hide MayHaveRun;
    hide Inv;
    hide Next;
    hide VerifyError;
    hide Confirmable;
  }

  lemma CheckedNow(y: Sys, steps: seq<Step>, n: nat)
    requires n < |steps| && steps[n].Verify?
    requires var z := Run(y, steps[..n]); Confirmable(z.rows, steps[n].id, steps[n].owner, steps[n].given, z.now)
    ensures CheckedBefore(y, steps, n + 1, steps[n].id, steps[n].approve, steps[n].settlerRole)
  {
  }

  lemma RunTraced(y: Sys, steps: seq<Step>, n: nat, s: nat)
    requires n < |steps| && steps[n] == RunApproved(s) && Traced(y, steps, n) && Inv(Run(y, steps[..n]))
    ensures var (z, after) := (Run(y, steps[..n]), Next(Run(y, steps[..n]), steps[n]));
            && z.runs <= after.runs
            && forall k :: |z.runs| <= k < |after.runs| && after.runs[k].approvedBy.Some? ==> MayHaveRun(y, steps, n, after.runs[k])
  {
    var z := Run(y, steps[..n]);
    RunKeepsInv(z, s);
    hide CheckedBefore;
    hide Inv;
    hide Validated;
    hide Confirmed;
  }

  lemma {:induction false} RunsTraced(y: Sys, steps: seq<Step>, n: nat)
    requires n <= |steps| && y.settlers == map[] && y.runs == [] && y.rows == []
    ensures Traced(y, steps, n) && Inv(Run(y, steps[..n]))
  {
    hide Next;
    hide Traced;
    if n > 0 {
      RunsTraced(y, steps, n - 1);
      TracedStep(y, steps, n - 1);
      RunOneMore(y, steps, n - 1);
      StepKeeps(Run(y, steps[..n - 1]), steps[n - 1]);
      hide Inv;
    } else {
      NothingTraced(y, steps);
    }
  }

  lemma NothingTraced(y: Sys, steps: seq<Step>)
    requires y.settlers == map[] && y.runs == [] && y.rows == []
    ensures Traced(y, steps, 0) && Inv(Run(y, steps[..0]))
  {
  }

  /**
   * Every confirmed run was approved by the operator it was shown to: some earlier step found
   * the confirmation open, that operator's, inside its window and with its phrase, said yes, and
   * had a role high enough for the tool.
   */
  lemma ApprovedByItsOwner(now: int, registry: Registry, steps: seq<Step>, k: nat)
    requires k < |Run(Start(now, registry), steps).runs|
    ensures var r := Run(Start(now, registry), steps).runs[k];
            r.approvedBy.Some? ==> MayHaveRun(Start(now, registry), steps, |steps|, r)
  {
    RunsTraced(Start(now, registry), steps, |steps|);
    assert steps[..|steps|] == steps;
    hide MayHaveRun;
    hide CheckedBefore;
    hide Inv;
    hide Next;
  }

  lemma StepKeepsVerdict(y: Sys, step: Step, id: nat)
    requires id < |y.rows|
    ensures id < |Next(y, step).rows|
    ensures Next(y, step).rows[id] == y.rows[id] || (y.rows[id].outcome == None && Next(y, step).rows[id] == y.rows[id].(outcome := Next(y, step).rows[id].outcome))
  {
    hide Validated;
    hide VerifyError;
  }

  /** What an operator was shown never changes, and a verdict, once given, is final. */
  lemma {:induction false} VerdictIsFinal(y: Sys, steps: seq<Step>, id: nat)
    requires id < |y.rows|
    ensures id < |Run(y, steps).rows|
    ensures y.rows[id].outcome.Some? ==> Run(y, steps).rows[id] == y.rows[id]
    ensures Run(y, steps).rows[id] == y.rows[id].(outcome := Run(y, steps).rows[id].outcome)
    decreases |steps|
  {
    hide Next;
    if steps != [] {
      StepKeepsVerdict(y, steps[0], id);
      VerdictIsFinal(Next(y, steps[0]), steps[1..], id);
    }
  }

  // ---- The store --------------------------------------------------------------------------------------

  class ConfirmationStore {
    var now: int
    var rows: seq<Row>

    constructor (start: int)
      ensures rows == [] && now == start
    {
      now, rows := start, [];
    }

    /** issueConfirmation and CreateAssistantConfirmation, for a call its Confirm planned. */
    method Create(tool: string, args: Args, owner: Owner, phrase: string) returns (id: nat)
      modifies `rows
      ensures id == |old(rows)| && rows == old(rows) + [Row(tool, args, args, owner, phrase, now + 300, None, true)]
    {
      id := |rows|;
      rows := rows + [Row(tool, args, args, owner, phrase, now + TTL, None, true)];
    }

    method VerifyConfirmation(id: nat, owner: Owner, phrase: string) returns (error: Option<ConfirmError>)
      ensures error == VerifyError(rows, id, owner, phrase, now)
      ensures error == None <==> Confirmable(rows, id, owner, phrase, now)
      ensures error == Some(Invalid) <==> id >= |rows|
      ensures error == Some(Mismatch) <==> id < |rows| && rows[id].owner != owner
      ensures error == Some(Settled) <==> id < |rows| && rows[id].owner == owner && rows[id].outcome != None
      ensures error == Some(ExpiredError) <==>
                id < |rows| && rows[id].owner == owner && rows[id].outcome == None && rows[id].expiresAt < now
    {
      if id >= |rows| {
        return Some(Invalid);
      }
      var row := rows[id];
      if row.owner != owner {
        return Some(Mismatch);
      }
      if row.outcome.Some? {
        return Some(Settled);
      }
      if now > row.expiresAt {
        return Some(ExpiredError);
      }
      if row.phrase != "" && TrimSpace(phrase) != row.phrase {
        return Some(WrongPhrase);
      }
      return None;
    }

    /**
     * SettleAssistantConfirmation: it succeeds on a row nothing has consumed, whose outcome
     * becomes the one given; whatever it answers, no other row and no earlier verdict changes.
     */
    method SettleConfirmation(id: nat, outcome: Verdict) returns (ok: bool)
      modifies `rows
      ensures ok <==> id < |old(rows)| && old(rows)[id].outcome == None
      ensures |rows| == |old(rows)|
      ensures forall k :: 0 <= k < |rows| && (k != id || !ok) ==> rows[k] == old(rows)[k]
      ensures ok ==> rows[id].outcome == Some(outcome) && rows[id] == old(rows)[id].(outcome := rows[id].outcome)
      ensures forall k :: 0 <= k < |rows| && old(rows)[k].outcome.Some? ==> rows[k].outcome == old(rows)[k].outcome
    {
      if id >= |rows| || rows[id].outcome.Some? {
        return false;
      }
      rows := rows[id := rows[id].(outcome := Some(outcome))];
      return true;
    }

    /** Settle, as far as the run: the arguments to run with, if this settlement may run them. */
    method SettleAndRun(registry: Registry, id: nat, owner: Owner, role: nat, phrase: string, approve: bool)
      returns (run: Option<Args>, error: Option<ConfirmError>)
      requires forall i :: 0 <= i < |rows| ==> Shown(registry, rows[i])
      modifies `rows
      ensures run.Some? <==> approve && VerifyError(old(rows), id, owner, phrase, now) == None
                             && old(rows)[id].tool in registry && role >= registry[old(rows)[id].tool].minRole
      ensures run.Some? ==> id < |old(rows)| == |rows| && run.value == old(rows)[id].args && rows[id].outcome == Some(Approved)
      ensures error == VerifyError(old(rows), id, owner, phrase, now)
      ensures error == None <==> Confirmable(old(rows), id, owner, phrase, now)
      ensures error == None ==> rows == old(rows)[id := old(rows)[id].(outcome := Some(if approve then Approved else Rejected))]
      ensures error.Some? && error != Some(ExpiredError) ==> rows == old(rows)
      ensures error == Some(ExpiredError) ==> Some(rows) == SettleRow(old(rows), id, Lapsed)
    {
      hide Validated;
      error := VerifyConfirmation(id, owner, phrase);
      if error.Some? {
        if error == Some(ExpiredError) {
          var _ := SettleConfirmation(id, Lapsed);
          assert rows == old(rows)[id := old(rows)[id].(outcome := Some(Lapsed))];
        }
        return None, error;
      }
      var row := rows[id];
      var ok := SettleConfirmation(id, if approve then Approved else Rejected);
      if !approve {
        return None, error;
      }
      ApprovedAlwaysMatches(registry, role, row);
      return Confirmed(registry, role, row), error;
    }
  }
}
