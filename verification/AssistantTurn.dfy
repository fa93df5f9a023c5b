/**
 * One turn of the assistant (assistant/loop.go).
 *
 * The model is arbitrary: a function from the transcript it is sent to a reply. So is each
 * tool: a function from the number of the call and its block to an outcome. For every such
 * model and every such tools, and every way a turn can end, the transcript stays one the next
 * request can send: each tool_use is answered by one tool_result, in order, in the very next
 * message.
 */
module AssistantTurn {
  import opened Options

  datatype Block =
    | Text(text: string)
    | ToolUse(id: string, name: string, input: string)
    | ToolResult(useId: string, content: string, isError: bool)

  datatype Role = User | Assistant

  datatype Message = Message(role: Role, blocks: seq<Block>)

  datatype Failure =
    | ConversationFull | Timeout | ModelUnavailable | Internal | DeclinedByModel | ToolLimit | SessionExpired

  datatype Reply = ModelError(failure: Failure) | Response(blocks: seq<Block>, stop: string, contextTokens: nat)

  /** What running a tool came to. */
  datatype Outcome = Outcome(content: string, isError: bool, confirmation: bool, unauthorized: bool)

  datatype Limits = Limits(maxToolRounds: int, maxToolCalls: int, maxTurns: int, maxContextTokens: int)

  /** What a turn has to work with. */
  datatype World = World(limits: Limits, model: seq<Message> -> Reply, execute: (nat, Block) -> Outcome)

  const CUT_OFF := "The response was cut off before this tool could run. It did not run."
  const LIMIT_REACHED := "The turn's tool-call limit was reached. This tool did not run."
  const PENDING := "A confirmation is pending with the operator. Do not call tools until they answer."

  // ---- Well-formed transcripts ---------------------------------------------------------------

  function Uses(blocks: seq<Block>): seq<string> {
    if blocks == [] then []
    else
      var before, last := Uses(blocks[..|blocks| - 1]), blocks[|blocks| - 1];
      if last.ToolUse? then before + [last.id] else before
  }

  function Results(blocks: seq<Block>): seq<string> {
    if blocks == [] then []
    else
      var before, last := Results(blocks[..|blocks| - 1]), blocks[|blocks| - 1];
      if last.ToolResult? then before + [last.useId] else before
  }

  /** The tool calls a message asks for; only the model's messages ask. */
  function Asked(m: Message): seq<string> { if m.role == Assistant then Uses(m.blocks) else [] }

  /** The tool calls a message answers; only the platform's messages answer. */
  function AnsweredBy(m: Message): seq<string> { if m.role == User then Results(m.blocks) else [] }

  /** Every message answers, in order, exactly what the one before it asked. */
  ghost predicate Paired(ts: seq<Message>) {
    && (ts != [] ==> AnsweredBy(ts[0]) == [])
    && forall i :: 0 < i < |ts| ==> AnsweredBy(ts[i]) == Asked(ts[i - 1])
  }

  /** And nothing is left unanswered at the end. */
  ghost predicate WellFormed(ts: seq<Message>) {
    Paired(ts) && (ts != [] ==> Asked(ts[|ts| - 1]) == [])
  }

  lemma AppendPaired(ts: seq<Message>, m: Message)
    requires Paired(ts) && AnsweredBy(m) == (if ts == [] then [] else Asked(ts[|ts| - 1]))
    ensures Paired(ts + [m])
  {
    var after := ts + [m];
    forall i | 0 < i < |after| ensures AnsweredBy(after[i]) == Asked(after[i - 1]) {
      assert after[i - 1] == ts[i - 1];
      if i < |ts| { assert after[i] == ts[i]; }
    }
  }

  // ---- One round of tools -----------------------------------------------------------------------

  /** What the turn's loop carries from block to block and round to round. `ran` numbers the calls that ran. */
  datatype Progress = Progress(results: seq<Block>, calls: nat, awaiting: bool, failure: Option<Failure>, ran: seq<(nat, Block)>)

  function RunBlock(p: Progress, block: Block, w: World): Progress {
    if !block.ToolUse? then p
    else
      var n := p.calls + 1;
      if n > w.limits.maxToolCalls then
        p.(calls := n, failure := if p.failure == None then Some(ToolLimit) else p.failure,
           results := p.results + [ToolResult(block.id, LIMIT_REACHED, true)])
      else if p.awaiting then p.(calls := n, results := p.results + [ToolResult(block.id, PENDING, true)])
      else
        var r := w.execute(n, block);
        Progress(p.results + [ToolResult(block.id, r.content, r.isError)], n, r.confirmation,
                 if r.unauthorized then Some(SessionExpired) else p.failure, p.ran + [(n, block)])
  }

  function RunBlocks(p: Progress, blocks: seq<Block>, w: World): Progress {
    if blocks == [] then p else RunBlock(RunBlocks(p, blocks[..|blocks| - 1], w), blocks[|blocks| - 1], w)
  }

  /** answerUnrun's blocks. */
  function Unrun(blocks: seq<Block>): seq<Block> {
    if blocks == [] then []
    else
      var before, last := Unrun(blocks[..|blocks| - 1]), blocks[|blocks| - 1];
      if last.ToolUse? then before + [ToolResult(last.id, CUT_OFF, true)] else before
  }

  lemma {:induction false} UnrunAnswersAll(blocks: seq<Block>)
    ensures Results(Unrun(blocks)) == Uses(blocks)
    ensures Unrun(blocks) == [] <==> Uses(blocks) == []
  {
    if blocks != [] {
      UnrunAnswersAll(blocks[..|blocks| - 1]);
      var before := Unrun(blocks[..|blocks| - 1]);
      if blocks[|blocks| - 1].ToolUse? {
        assert Unrun(blocks)[..|before|] == before;
      }
    }
  }

  /** Each tool_use of a round gets exactly one result, in order, whatever the tools and the caps do. */
  lemma {:induction false} RoundAnswersAll(p: Progress, blocks: seq<Block>, w: World)
    requires p.results == []
    ensures Results(RunBlocks(p, blocks, w).results) == Uses(blocks)
  {
    if blocks != [] {
      RoundAnswersAll(p, blocks[..|blocks| - 1], w);
      var before := RunBlocks(p, blocks[..|blocks| - 1], w);
      var after := RunBlock(before, blocks[|blocks| - 1], w);
      if blocks[|blocks| - 1].ToolUse? {
        assert after.results[..|before.results|] == before.results;
      }
    }
  }

  // ---- The rounds ---------------------------------------------------------------------------------

  datatype Turn = Turn(transcript: seq<Message>, progress: Progress, stop: string, contextTokens: nat, over: bool)

  function Begun(transcript: seq<Message>): Turn {
    Turn(transcript, Progress([], 0, false, None, []), "end_turn", 0, false)
  }

  /** A round after the model has replied. */
  function RoundStep(t: Turn, reply: Reply, lastRound: bool, w: World): Turn {
    match reply
    case ModelError(failure) => t.(progress := t.progress.(failure := Some(failure)), over := true)
    case Response(blocks, stop, tokens) =>
      var said := t.transcript + [Message(Assistant, blocks)];
      if stop != "tool_use" then
        var ended := t.(transcript := if Unrun(blocks) == [] then said else said + [Message(User, Unrun(blocks))],
                        contextTokens := tokens, over := true);
        if stop == "refusal" then ended.(progress := t.progress.(failure := Some(DeclinedByModel)))
        else ended.(stop := stop)
      else
        var p := RunBlocks(t.progress.(results := []), blocks, w);
        var q := if p.failure == None && lastRound then p.(failure := Some(ToolLimit)) else p;
        t.(transcript := said + [Message(User, p.results)], progress := q, contextTokens := tokens, over := p.failure.Some?)
  }

  function Rounds(t: Turn, round: nat, w: World): Turn
    decreases w.limits.maxToolRounds - round
  {
    if round >= w.limits.maxToolRounds || t.over then t
    else Rounds(RoundStep(t, w.model(t.transcript), round == w.limits.maxToolRounds - 1, w), round + 1, w)
  }

  // ---- What every turn keeps -------------------------------------------------------------------------

  lemma RoundKeepsWellFormed(t: Turn, reply: Reply, lastRound: bool, w: World)
    requires WellFormed(t.transcript)
    ensures WellFormed(RoundStep(t, reply, lastRound, w).transcript)
    ensures t.transcript <= RoundStep(t, reply, lastRound, w).transcript
  {
    hide RunBlocks;
    hide Uses;
    hide Unrun;
    if reply.Response? {
      var said := t.transcript + [Message(Assistant, reply.blocks)];
      AppendPaired(t.transcript, Message(Assistant, reply.blocks));
      if reply.stop != "tool_use" {
        UnrunAnswersAll(reply.blocks);
        if Unrun(reply.blocks) != [] {
          AppendPaired(said, Message(User, Unrun(reply.blocks)));
        }
      } else {
        var p := t.progress.(results := []);
        RoundAnswersAll(p, reply.blocks, w);
        AppendPaired(said, Message(User, RunBlocks(p, reply.blocks, w).results));
      }
    }
  }

  /** However a turn ends, the transcript is well formed and has only grown, by at most two messages a round. */
  lemma {:induction false} TurnKeepsWellFormed(t: Turn, round: nat, w: World)
    requires WellFormed(t.transcript)
    ensures WellFormed(Rounds(t, round, w).transcript)
    ensures t.transcript <= Rounds(t, round, w).transcript
    ensures round <= w.limits.maxToolRounds ==>
              |Rounds(t, round, w).transcript| <= |t.transcript| + 2 * (w.limits.maxToolRounds - round)
    decreases w.limits.maxToolRounds - round
  {
    hide RoundStep;
    if round < w.limits.maxToolRounds && !t.over {
      var next := RoundStep(t, w.model(t.transcript), round == w.limits.maxToolRounds - 1, w);
      RoundKeepsWellFormed(t, w.model(t.transcript), round == w.limits.maxToolRounds - 1, w);
      RoundGrows(t, w.model(t.transcript), round == w.limits.maxToolRounds - 1, w);
      TurnKeepsWellFormed(next, round + 1, w);
    }
  }

  lemma RoundGrows(t: Turn, reply: Reply, lastRound: bool, w: World)
    ensures |RoundStep(t, reply, lastRound, w).transcript| <= |t.transcript| + 2
  {
  }

  /**
   * The caps: calls are numbered as they are made, at most maxToolCalls of them run, and only
   * the last that ran can have asked for a confirmation.
   */
  ghost predicate Capped(p: Progress, w: World) { CappedRuns(p.calls, p.awaiting, p.ran, w) }

  ghost predicate CappedRuns(calls: nat, awaiting: bool, ran: seq<(nat, Block)>, w: World) {
    && |ran| <= calls
    && (ran != [] ==> |ran| <= w.limits.maxToolCalls)
    && (forall i :: 0 <= i < |ran| ==> 0 < ran[i].0 <= calls && ran[i].0 <= w.limits.maxToolCalls)
    && (forall i, j :: 0 <= i < j < |ran| ==> ran[i].0 < ran[j].0)
    && (awaiting <==> ran != [] && Asks(ran[|ran| - 1], w))
    && (forall i :: 0 <= i < |ran| - 1 ==> !Asks(ran[i], w))
  }

  predicate Asks(call: (nat, Block), w: World) { w.execute(call.0, call.1).confirmation }

  lemma RanOneMore(ran: seq<(nat, Block)>, call: (nat, Block), w: World)
    requires forall i :: 0 <= i < |ran| ==> ran[i].0 < call.0 && !Asks(ran[i], w)
    requires forall i, j :: 0 <= i < j < |ran| ==> ran[i].0 < ran[j].0
    ensures var more := ran + [call];
            && more[|more| - 1] == call
            && (forall i, j :: 0 <= i < j < |more| ==> more[i].0 < more[j].0)
            && (forall i :: 0 <= i < |more| - 1 ==> more[i] == ran[i] && !Asks(more[i], w))
  {
  }

  lemma BlockKeepsCaps(p: Progress, block: Block, w: World)
    requires Capped(p, w)
    ensures Capped(RunBlock(p, block, w), w)
    ensures p.awaiting ==> RunBlock(p, block, w).ran == p.ran && RunBlock(p, block, w).awaiting
    ensures p.ran <= RunBlock(p, block, w).ran
  {
    var q := RunBlock(p, block, w);
    if q.ran != p.ran {
      RanOneMore(p.ran, (p.calls + 1, block), w);
    }
  }

  lemma {:induction false} BlocksKeepCaps(p: Progress, blocks: seq<Block>, w: World)
    requires Capped(p, w)
    ensures Capped(RunBlocks(p, blocks, w), w)
    ensures p.awaiting ==> RunBlocks(p, blocks, w).ran == p.ran && RunBlocks(p, blocks, w).awaiting
    ensures p.ran <= RunBlocks(p, blocks, w).ran
  {
    hide RunBlock;
    hide Capped;
    if blocks != [] {
      BlocksKeepCaps(p, blocks[..|blocks| - 1], w);
      BlockKeepsCaps(RunBlocks(p, blocks[..|blocks| - 1], w), blocks[|blocks| - 1], w);
    }
  }

  lemma RoundKeepsCaps(t: Turn, reply: Reply, lastRound: bool, w: World)
    requires Capped(t.progress, w)
    ensures Capped(RoundStep(t, reply, lastRound, w).progress, w)
    ensures t.progress.awaiting ==>
              RoundStep(t, reply, lastRound, w).progress.ran == t.progress.ran && RoundStep(t, reply, lastRound, w).progress.awaiting
  {
    hide RunBlocks;
    hide Unrun;
    hide CappedRuns;
    if reply.Response? && reply.stop == "tool_use" {
      BlocksKeepCaps(t.progress.(results := []), reply.blocks, w);
    }
  }

  // ---- What the model is told of each tool -------------------------------------------------------------

  /** The tool calls of a message. */
  function UseBlocks(blocks: seq<Block>): seq<Block> {
    if blocks == [] then []
    else
      var before, last := UseBlocks(blocks[..|blocks| - 1]), blocks[|blocks| - 1];
      if last.ToolUse? then before + [last] else before
  }

  ghost predicate AskedBefore(ran: seq<(nat, Block)>, n: nat, w: World) {
    exists e :: e in ran && e.0 < n && w.execute(e.0, e.1).confirmation
  }

  /**
   * The n-th call of a turn: over the cap or after a confirmation was asked for it does not
   * run, and is answered with an error that says which; otherwise it runs, and is answered
   * with what came of it.
   */
  ghost predicate Told(ran: seq<(nat, Block)>, n: nat, call: Block, answer: Block, w: World)
    requires call.ToolUse?
  {
    if n > w.limits.maxToolCalls then
      (n, call) !in ran && answer == ToolResult(call.id, LIMIT_REACHED, true)
    else if AskedBefore(ran, n, w) then
      (n, call) !in ran
      && answer == ToolResult(call.id, PENDING, true)
    else
      (n, call) in ran && answer == ToolResult(call.id, w.execute(n, call).content, w.execute(n, call).isError)
  }

  /** Calls that run later do not change what an earlier one was told. */
  lemma ToldStands(ran: seq<(nat, Block)>, more: seq<(nat, Block)>, n: nat, call: Block, answer: Block, w: World)
    requires call.ToolUse? && Told(ran, n, call, answer, w)
    requires forall e :: e in more ==> e.0 > n
    ensures Told(ran + more, n, call, answer, w)
  {
    hide AskedBefore;
    AskedStands(ran, more, n, w);
    assert (n, call) in ran + more <==> (n, call) in ran || (n, call) in more;
  }

  lemma AskedStands(ran: seq<(nat, Block)>, more: seq<(nat, Block)>, n: nat, w: World)
    requires forall e :: e in more ==> e.0 > n
    ensures AskedBefore(ran + more, n, w) <==> AskedBefore(ran, n, w)
  {
  }

  lemma BlockTold(p: Progress, block: Block, w: World)
    requires Capped(p, w) && block.ToolUse?
    ensures var q := RunBlock(p, block, w);
            && q.calls == p.calls + 1 && |q.results| == |p.results| + 1 && q.results[..|p.results|] == p.results
            && (q.ran == p.ran || q.ran == p.ran + [(p.calls + 1, block)])
            && Told(q.ran, p.calls + 1, block, q.results[|p.results|], w)
  {
    var q := RunBlock(p, block, w);
    var n := p.calls + 1;
    if p.awaiting {
      assert Asks(p.ran[|p.ran| - 1], w) && p.ran[|p.ran| - 1] in p.ran;
      assert AskedBefore(p.ran, n, w);
    } else {
      forall e | e in p.ran ensures !w.execute(e.0, e.1).confirmation {
        var i :| 0 <= i < |p.ran| && p.ran[i] == e;
        assert !Asks(p.ran[i], w);
      }
      assert !AskedBefore(p.ran + [(n, block)], n, w);
    }
    assert (n, block) !in p.ran;
  }

  lemma {:induction false} UsesAreCalls(blocks: seq<Block>)
    ensures forall k | 0 <= k < |UseBlocks(blocks)| :: UseBlocks(blocks)[k].ToolUse?
    ensures |UseBlocks(blocks)| == |Uses(blocks)| && forall k | 0 <= k < |Uses(blocks)| :: UseBlocks(blocks)[k].id == Uses(blocks)[k]
  {
    if blocks != [] { UsesAreCalls(blocks[..|blocks| - 1]); }
  }

  /** One round, from the calls made before it. */
  ghost predicate RoundTold(p: Progress, uses: seq<Block>, q: Progress, w: World)
    requires forall k | 0 <= k < |uses| :: uses[k].ToolUse?
  {
    && q.calls == p.calls + |uses| && |q.results| == |uses|
    && (forall k | 0 <= k < |uses| :: Told(q.ran, p.calls + k + 1, uses[k], q.results[k], w))
    && p.ran <= q.ran
    && (forall i | |p.ran| <= i < |q.ran| :: exists k | 0 <= k < |uses| :: q.ran[i] == (p.calls + k + 1, uses[k]))
  }

  lemma {:induction false} BlocksTold(p: Progress, blocks: seq<Block>, w: World)
    requires Capped(p, w) && p.results == []
    ensures forall k | 0 <= k < |UseBlocks(blocks)| :: UseBlocks(blocks)[k].ToolUse?
    ensures RoundTold(p, UseBlocks(blocks), RunBlocks(p, blocks, w), w)
  {
    hide RunBlock;
    hide Told;
    hide Capped;
    UsesAreCalls(blocks);
    if blocks != [] {
      var prefix, last := blocks[..|blocks| - 1], blocks[|blocks| - 1];
      UsesAreCalls(prefix);
      BlocksTold(p, prefix, w);
      BlocksKeepCaps(p, prefix, w);
      if !last.ToolUse? {
        TextRunsNothing(RunBlocks(p, prefix, w), last, w);
      } else {
        BlockTold(RunBlocks(p, prefix, w), last, w);
        NextTold(p, UseBlocks(prefix), RunBlocks(p, prefix, w), last, RunBlocks(p, blocks, w), w);
      }
    }
  }

  lemma TextRunsNothing(p: Progress, block: Block, w: World)
    requires !block.ToolUse?
    ensures RunBlock(p, block, w) == p
  {
  }

  lemma NextTold(p: Progress, uses: seq<Block>, q: Progress, last: Block, r: Progress, w: World)
    requires (forall k | 0 <= k < |uses| :: uses[k].ToolUse?) && last.ToolUse? && RoundTold(p, uses, q, w)
    requires r.calls == q.calls + 1 && |r.results| == |q.results| + 1 && r.results[..|q.results|] == q.results
    requires r.ran == q.ran || r.ran == q.ran + [(q.calls + 1, last)]
    requires Told(r.ran, q.calls + 1, last, r.results[|q.results|], w)
    ensures RoundTold(p, uses + [last], r, w)
  {
    hide Told;
    var all := uses + [last];
    forall k | 0 <= k < |all| ensures Told(r.ran, p.calls + k + 1, all[k], r.results[k], w) {
      if k < |uses| {
        assert r.results[k] == r.results[..|q.results|][k];
        if r.ran != q.ran { ToldStands(q.ran, [(q.calls + 1, last)], p.calls + k + 1, uses[k], q.results[k], w); }
      }
    }
    forall i | |p.ran| <= i < |r.ran| ensures exists k | 0 <= k < |all| :: r.ran[i] == (p.calls + k + 1, all[k]) {
      if i < |q.ran| {
        var k :| 0 <= k < |uses| && q.ran[i] == (p.calls + k + 1, uses[k]);
        assert r.ran[i] == (p.calls + k + 1, all[k]);
      } else {
        assert r.ran[i] == (p.calls + |uses| + 1, all[|uses|]);
      }
    }
  }

  /** The calls the messages of a turn ask for. */
  function CallsIn(ts: seq<Message>): nat {
    if ts == [] then 0 else CallsIn(ts[..|ts| - 1]) + |Asked(ts[|ts| - 1])|
  }

  /**
   * The message at i is what the model replied to those before it, and each of its calls is
   * answered at its place in the next message: as cut off when the model stopped for another
   * reason than its tools, and as the call of that number otherwise.
   */
  ghost predicate Reported(ts: seq<Message>, base: nat, i: nat, ran: seq<(nat, Block)>, w: World)
    requires base <= i < |ts|
  {
    var uses := UseBlocks(ts[i].blocks);
    && w.model(ts[..i]).Response? && ts[i].blocks == w.model(ts[..i]).blocks
    && (uses != [] ==> i + 1 < |ts| && ts[i + 1].role == User && |ts[i + 1].blocks| == |uses|)
    && forall k | 0 <= k < |uses| ::
         uses[k].ToolUse?
         && if w.model(ts[..i]).stop != "tool_use"
            then ts[i + 1].blocks[k] == ToolResult(uses[k].id, CUT_OFF, true)
            else Told(ran, CallsIn(ts[base..i]) + k + 1, uses[k], ts[i + 1].blocks[k], w)
  }

  /** A call that ran, in the message that asked for it. */
  ghost predicate RanAt(ts: seq<Message>, base: nat, e: (nat, Block), i: nat, k: nat, w: World) {
    && base <= i < |ts| && ts[i].role == Assistant && k < |UseBlocks(ts[i].blocks)|
    && w.model(ts[..i]).Response? && w.model(ts[..i]).stop == "tool_use"
    && e == (CallsIn(ts[base..i]) + k + 1, UseBlocks(ts[i].blocks)[k])
  }

  /** Every message of the model since `base` is reported on, and every call that ran was asked for in one. */
  ghost predicate AllReported(ts: seq<Message>, base: nat, ran: seq<(nat, Block)>, w: World) {
    && (forall i | base <= i < |ts| && ts[i].role == Assistant :: Reported(ts, base, i, ran, w))
    && (forall e | e in ran :: exists i, k :: RanAt(ts, base, e, i, k, w))
  }

  ghost predicate Reporting(t: Turn, base: nat, w: World) {
    && base <= |t.transcript| && Capped(t.progress, w) && AllReported(t.transcript, base, t.progress.ran, w)
    && (!t.over ==> t.progress.calls == CallsIn(t.transcript[base..]))
  }

  lemma ReportStands(ts: seq<Message>, us: seq<Message>, base: nat, i: nat, ran: seq<(nat, Block)>, more: seq<(nat, Block)>, w: World)
    requires base <= i < |ts| <= |us| && us[..|ts|] == ts && Reported(ts, base, i, ran, w)
    requires UseBlocks(ts[i].blocks) == [] || (forall e :: e in more ==> e.0 > CallsIn(ts[base..i]) + |UseBlocks(ts[i].blocks)|)
    ensures Reported(us, base, i, ran + more, w)
  {
    hide Told;
    assert us[..i] == ts[..i] && us[base..i] == ts[base..i] && us[i] == ts[i];
    var uses := UseBlocks(ts[i].blocks);
    if uses != [] {
      assert us[i + 1] == ts[i + 1];
      forall k | 0 <= k < |uses| && w.model(ts[..i]).stop == "tool_use"
        ensures Told(ran + more, CallsIn(ts[base..i]) + k + 1, uses[k], ts[i + 1].blocks[k], w)
      {
        ToldStands(ran, more, CallsIn(ts[base..i]) + k + 1, uses[k], ts[i + 1].blocks[k], w);
      }
    }
  }

  lemma {:induction false} CallsGrow(ts: seq<Message>, i: nat)
    requires i <= |ts|
    ensures CallsIn(ts[..i]) <= CallsIn(ts)
    ensures i < |ts| ==> CallsIn(ts[..i]) + |Asked(ts[i])| <= CallsIn(ts)
  {
    if i < |ts| {
      if i < |ts| - 1 {
        CallsGrow(ts[..|ts| - 1], i);
        assert ts[..|ts| - 1][..i] == ts[..i];
      }
    } else {
      assert ts[..i] == ts;
    }
  }

  lemma RanStands(ts: seq<Message>, us: seq<Message>, base: nat, e: (nat, Block), i: nat, k: nat, w: World)
    requires |ts| <= |us| && us[..|ts|] == ts && RanAt(ts, base, e, i, k, w)
    ensures RanAt(us, base, e, i, k, w)
  {
    assert us[..i] == ts[..i] && us[base..i] == ts[base..i] && us[i] == ts[i];
  }

  /** Adding messages without running anything. */
  lemma OldReportsStand(ts: seq<Message>, us: seq<Message>, base: nat, ran: seq<(nat, Block)>, more: seq<(nat, Block)>, w: World)
    requires base <= |ts| <= |us| && us[..|ts|] == ts && AllReported(ts, base, ran, w)
    requires forall e :: e in more ==> e.0 > CallsIn(ts[base..])
    ensures forall i | base <= i < |ts| && us[i].role == Assistant :: Reported(us, base, i, ran + more, w)
    ensures forall e | e in ran :: exists i, k :: RanAt(us, base, e, i, k, w)
  {
    forall i | base <= i < |ts| && us[i].role == Assistant ensures Reported(us, base, i, ran + more, w) {
      assert us[i] == ts[i];
      var since := ts[base..];
      CallsGrow(since, i - base);
      assert since[..i - base] == ts[base..i] && since[i - base] == ts[i];
      UsesAreCalls(ts[i].blocks);
      ReportStands(ts, us, base, i, ran, more, w);
    }
    forall e | e in ran ensures exists i, k :: RanAt(us, base, e, i, k, w) {
      var i, k :| RanAt(ts, base, e, i, k, w);
      RanStands(ts, us, base, e, i, k, w);
    }
  }

  lemma {:induction false} UnrunTold(blocks: seq<Block>)
    ensures |Unrun(blocks)| == |UseBlocks(blocks)|
    ensures forall k | 0 <= k < |UseBlocks(blocks)| ::
              UseBlocks(blocks)[k].ToolUse?
              && Unrun(blocks)[k] == ToolResult(UseBlocks(blocks)[k].id, CUT_OFF, true)
  {
    if blocks != [] { UnrunTold(blocks[..|blocks| - 1]); }
  }

  /** A round whose tools were cut off. */
  lemma CutOffReports(t: Turn, base: nat, w: World, us: seq<Message>)
    requires Reporting(t, base, w) && w.model(t.transcript).Response? && w.model(t.transcript).stop != "tool_use"
    requires var blocks := w.model(t.transcript).blocks;
             var said := t.transcript + [Message(Assistant, blocks)];
             us == if Unrun(blocks) == [] then said else said + [Message(User, Unrun(blocks))]
    ensures AllReported(us, base, t.progress.ran, w)
  {
    hide Unrun;
    hide Reported;
    hide RanAt;
    hide Capped;
    hide CallsIn;
    var ts := t.transcript;
    assert us[..|ts|] == ts;
    OldReportsStand(ts, us, base, t.progress.ran, [], w);
    assert t.progress.ran + [] == t.progress.ran;
    CutOffReport(ts, base, t.progress.ran, w, us);
    assert us[|ts|] == Message(Assistant, w.model(ts).blocks);
  }

  lemma CutOffReport(ts: seq<Message>, base: nat, ran: seq<(nat, Block)>, w: World, us: seq<Message>)
    requires base <= |ts| && w.model(ts).Response? && w.model(ts).stop != "tool_use"
    requires var said := ts + [Message(Assistant, w.model(ts).blocks)];
             us == if Unrun(w.model(ts).blocks) == [] then said else said + [Message(User, Unrun(w.model(ts).blocks))]
    ensures Reported(us, base, |ts|, ran, w)
  {
    UnrunTold(w.model(ts).blocks);
    hide Unrun;
    hide Told;
    hide UseBlocks;
    hide CallsIn;
    assert us[..|ts|] == ts && us[|ts|] == Message(Assistant, w.model(ts).blocks);
  }

  /** What a round added to the calls that ran. */
  lemma AddedCalls(p: Progress, uses: seq<Block>, q: Progress, w: World) returns (more: seq<(nat, Block)>)
    requires (forall k | 0 <= k < |uses| :: uses[k].ToolUse?) && RoundTold(p, uses, q, w)
    ensures q.ran == p.ran + more
    ensures forall e | e in more :: e.0 > p.calls && exists k | 0 <= k < |uses| :: e == (p.calls + k + 1, uses[k])
  {
    hide Told;
    more := q.ran[|p.ran|..];
    forall e | e in more ensures e.0 > p.calls && exists k | 0 <= k < |uses| :: e == (p.calls + k + 1, uses[k]) {
      var i :| 0 <= i < |more| && more[i] == e;
      assert q.ran[|p.ran| + i] == e;
    }
  }

  lemma LastReport(ts: seq<Message>, base: nat, p: Progress, q: Progress, w: World, us: seq<Message>)
    requires base <= |ts| && w.model(ts).Response? && w.model(ts).stop == "tool_use" && p.calls == CallsIn(ts[base..])
    requires forall k | 0 <= k < |UseBlocks(w.model(ts).blocks)| :: UseBlocks(w.model(ts).blocks)[k].ToolUse?
    requires RoundTold(p, UseBlocks(w.model(ts).blocks), q, w)
    requires us == ts + [Message(Assistant, w.model(ts).blocks)] + [Message(User, q.results)]
    ensures Reported(us, base, |ts|, q.ran, w)
    ensures forall k | 0 <= k < |UseBlocks(w.model(ts).blocks)| ::
              RanAt(us, base, (p.calls + k + 1, UseBlocks(w.model(ts).blocks)[k]), |ts|, k, w)
  {
    hide Told;
    hide UseBlocks;
    hide CallsIn;
    var n := |ts|;
    assert us[..n] == ts && us[base..n] == ts[base..];
    assert us[n] == Message(Assistant, w.model(ts).blocks) && us[n + 1] == Message(User, q.results);
  }

  lemma CallsAdded(ts: seq<Message>, base: nat, blocks: seq<Block>, results: seq<Block>)
    requires base <= |ts|
    ensures CallsIn((ts + [Message(Assistant, blocks)] + [Message(User, results)])[base..]) == CallsIn(ts[base..]) + |Uses(blocks)|
  {
    var since := (ts + [Message(Assistant, blocks)] + [Message(User, results)])[base..];
    assert since == ts[base..] + [Message(Assistant, blocks)] + [Message(User, results)];
    assert since[..|since| - 1] == ts[base..] + [Message(Assistant, blocks)];
    assert (ts[base..] + [Message(Assistant, blocks)])[..|ts| - base] == ts[base..];
  }

  /** A round whose tools were called. */
  lemma CalledReports(t: Turn, base: nat, w: World, q: Progress, us: seq<Message>)
    requires Reporting(t, base, w) && !t.over && w.model(t.transcript).Response? && w.model(t.transcript).stop == "tool_use"
    requires q == RunBlocks(t.progress.(results := []), w.model(t.transcript).blocks, w)
    requires us == t.transcript + [Message(Assistant, w.model(t.transcript).blocks)] + [Message(User, q.results)]
    ensures AllReported(us, base, q.ran, w) && q.calls == CallsIn(us[base..])
  {
    hide RunBlocks;
    hide UseBlocks;
    hide Told;
    hide Reported;
    hide RanAt;
    hide CallsIn;
    var ts, n, blocks := t.transcript, |t.transcript|, w.model(t.transcript).blocks;
    var p, uses := t.progress.(results := []), UseBlocks(blocks);
    BlocksTold(p, blocks, w);
    UsesAreCalls(blocks);
    var more := AddedCalls(p, uses, q, w);
    LastReport(ts, base, p, q, w, us);
    CallsAdded(ts, base, blocks, q.results);
    assert us[..n] == ts;
    OldReportsStand(ts, us, base, p.ran, more, w);
    forall e | e in q.ran ensures exists i, k :: RanAt(us, base, e, i, k, w) {
      if e in more {
        var k :| 0 <= k < |uses| && e == (p.calls + k + 1, uses[k]);
        assert RanAt(us, base, e, n, k, w);
      }
    }
  }

  lemma RoundReports(t: Turn, lastRound: bool, base: nat, w: World)
    requires Reporting(t, base, w) && !t.over
    ensures Reporting(RoundStep(t, w.model(t.transcript), lastRound, w), base, w)
  {
    var reply := w.model(t.transcript);
    RoundKeepsCaps(t, reply, lastRound, w);
    hide Capped;
    if reply.Response? {
      if reply.stop != "tool_use" {
        CutOffReports(t, base, w, RoundStep(t, reply, lastRound, w).transcript);
      } else {
        var q := RunBlocks(t.progress.(results := []), reply.blocks, w);
        CalledReports(t, base, w, q, RoundStep(t, reply, lastRound, w).transcript);
      }
    }
    hide AllReported;
    hide RunBlocks;
    hide Unrun;
    hide CallsIn;
  }

  /**
   * For every model and every tools, in a whole turn each call the model made is answered, at
   * its place, with what came of it if it ran, and with an error that says why if it did not.
   */
  lemma {:induction false} TurnReportsEveryCall(t: Turn, round: nat, base: nat, w: World)
    requires Reporting(t, base, w)
    ensures Reporting(Rounds(t, round, w), base, w)
    decreases w.limits.maxToolRounds - round
  {
    hide RoundStep;
    hide Reporting;
    if round < w.limits.maxToolRounds && !t.over {
      RoundReports(t, round == w.limits.maxToolRounds - 1, base, w);
      TurnReportsEveryCall(RoundStep(t, w.model(t.transcript), round == w.limits.maxToolRounds - 1, w), round + 1, base, w);
    }
  }

  lemma BegunReports(messages: seq<Message>, w: World)
    ensures Reporting(Begun(messages), |messages|, w)
  {
    assert messages[|messages|..] == [];
  }

  // ---- How a turn ends ---------------------------------------------------------------------------------

  /** Some call that ran was told that the session has ended. */
  ghost predicate SignedOut(ran: seq<(nat, Block)>, w: World) {
    exists e :: e in ran && w.execute(e.0, e.1).unauthorized
  }

  /** A turn that goes on has failed at nothing. */
  ghost predicate Sound(p: Progress, w: World) { p.failure == None && !SignedOut(p.ran, w) }

  lemma SignedOutBy(ran: seq<(nat, Block)>, e: (nat, Block), w: World)
    ensures SignedOut(ran + [e], w) <==> SignedOut(ran, w) || w.execute(e.0, e.1).unauthorized
  {
    assert e in ran + [e];
  }

  /** A round fails exactly when a call of it was signed out or went over the cap, and the first counts for more. */
  lemma {:induction false} BlocksFail(p: Progress, blocks: seq<Block>, w: World)
    requires Sound(p, w)
    ensures var q := RunBlocks(p, blocks, w);
            && q.calls == p.calls + |Uses(blocks)|
            && q.failure == if SignedOut(q.ran, w) then Some(SessionExpired)
                            else if Uses(blocks) != [] && q.calls > w.limits.maxToolCalls then Some(ToolLimit) else None
  {
    hide SignedOut;
    if blocks != [] {
      BlocksFail(p, blocks[..|blocks| - 1], w);
      var q, last := RunBlocks(p, blocks[..|blocks| - 1], w), blocks[|blocks| - 1];
      SignedOutBy(q.ran, (q.calls + 1, last), w);
    }
  }

  /**
   * The round that started after n messages was the last, and the turn ended as it says: with
   * the model's error, its refusal, its own stop, or a failure of its tools.
   */
  ghost predicate EndedAt(t: Turn, n: nat, w: World)
    requires n <= |t.transcript|
  {
    match w.model(t.transcript[..n])
    case ModelError(failure) => n == |t.transcript| && t.progress.failure == Some(failure)
    case Response(blocks, stop, tokens) =>
      && t.contextTokens == tokens && n < |t.transcript| && t.transcript[n] == Message(Assistant, blocks)
      && if stop == "refusal" then t.progress.failure == Some(DeclinedByModel)
         else if stop != "tool_use" then t.progress.failure == None && t.stop == stop
         else t.progress.failure == Some(if SignedOut(t.progress.ran, w) then SessionExpired else ToolLimit)
  }

  lemma RoundEnds(t: Turn, lastRound: bool, w: World)
    requires !t.over && Sound(t.progress, w)
    ensures var u := RoundStep(t, w.model(t.transcript), lastRound, w);
            && |t.transcript| <= |u.transcript| && u.transcript[..|t.transcript|] == t.transcript
            && (u.over || lastRound ==> EndedAt(u, |t.transcript|, w))
            && (!u.over && !lastRound ==> Sound(u.progress, w))
  {
    var reply := w.model(t.transcript);
    if reply.Response? { BlocksFail(t.progress.(results := []), reply.blocks, w); }
    hide RunBlocks;
    hide Unrun;
    hide SignedOut;
    hide Uses;
    var u := RoundStep(t, reply, lastRound, w);
    assert u.transcript[..|t.transcript|] == t.transcript;
  }

  /** Every turn with a round to spend ends as its last round says. */
  lemma {:induction false} TurnEndsAsItsLastRoundDid(t: Turn, round: nat, w: World)
    requires round < w.limits.maxToolRounds && !t.over && Sound(t.progress, w)
    ensures exists n | 0 <= n <= |Rounds(t, round, w).transcript| :: EndedAt(Rounds(t, round, w), n, w)
    decreases w.limits.maxToolRounds - round
  {
    var lastRound := round == w.limits.maxToolRounds - 1;
    var next := RoundStep(t, w.model(t.transcript), lastRound, w);
    RoundEnds(t, lastRound, w);
    hide RoundStep;
    hide EndedAt;
    hide Sound;
    assert Rounds(t, round, w) == Rounds(next, round + 1, w);
    if lastRound || next.over {
      assert Rounds(next, round + 1, w) == next;
      assert EndedAt(next, |t.transcript|, w);
    } else {
      TurnEndsAsItsLastRoundDid(next, round + 1, w);
    }
  }

  /** In a whole turn at most maxToolCalls tools run, and none runs after one has asked for a confirmation. */
  lemma {:induction false} TurnKeepsCaps(t: Turn, round: nat, w: World)
    requires Capped(t.progress, w)
    ensures Capped(Rounds(t, round, w).progress, w)
    ensures t.progress.awaiting ==> Rounds(t, round, w).progress.ran == t.progress.ran
    decreases w.limits.maxToolRounds - round
  {
    hide RoundStep;
    hide Capped;
    if round < w.limits.maxToolRounds && !t.over {
      RoundKeepsCaps(t, w.model(t.transcript), round == w.limits.maxToolRounds - 1, w);
      TurnKeepsCaps(RoundStep(t, w.model(t.transcript), round == w.limits.maxToolRounds - 1, w), round + 1, w);
    }
  }

  // ---- Tools called while a confirmation is pending ----------------------------------------------------

  /** Every tool of a round is refused while a confirmation is pending, and only the cap on calls is a failure. */
  lemma {:induction false} PendingBlocks(p: Progress, blocks: seq<Block>, w: World)
    requires p.awaiting && p.failure == None
    ensures var q := RunBlocks(p, blocks, w);
            && q.awaiting && q.ran == p.ran && q.calls == p.calls + |Uses(blocks)|
            && (q.failure.Some? <==> Uses(blocks) != [] && q.calls > w.limits.maxToolCalls)
  {
    if blocks != [] {
      PendingBlocks(p, blocks[..|blocks| - 1], w);
    }
  }

  /**
   * The comment promises that a turn ends when the model calls tools while a confirmation is
   * pending. It does exactly when those calls go over the cap; in any case none of them runs.
   */
  lemma PendingRoundEndsExactlyOverTheCap(t: Turn, reply: Reply, lastRound: bool, w: World)
    requires t.progress.awaiting && t.progress.failure == None && !t.over
    requires reply.Response? && reply.stop == "tool_use"
    ensures RoundStep(t, reply, lastRound, w).over <==>
              Uses(reply.blocks) != [] && t.progress.calls + |Uses(reply.blocks)| > w.limits.maxToolCalls
    ensures RoundStep(t, reply, lastRound, w).progress.ran == t.progress.ran
  {
    hide RunBlocks;
    hide Uses;
    PendingBlocks(t.progress.(results := []), reply.blocks, w);
  }

  const HELLO := Message(User, [Text("Lock the door")])
  const FIRST_CALL := ToolUse("a", "lock_door", "{}")
  const SECOND_CALL := ToolUse("b", "list_doors", "{}")
  const WAITING := Text("I am waiting for you.")

  /** A model that asks for a confirmation, calls a tool again, and then says that it waits. */
  function Persistent(ts: seq<Message>): Reply {
    if |ts| == 1 then Response([FIRST_CALL], "tool_use", 10)
    else if |ts| == 3 then Response([SECOND_CALL], "tool_use", 20)
    else Response([WAITING], "end_turn", 30)
  }

  function PersistentWorld(): World {
    World(Limits(8, 20, 0, 0), Persistent, (n: nat, block: Block) => Outcome("confirmation_required", false, true, false))
  }

  lemma OneUse(p: Progress, block: Block, w: World)
    ensures RunBlocks(p, [block], w) == RunBlock(p, block, w)
  {
    assert [block][..0] == [];
  }

  lemma OneText(text: string)
    ensures Unrun([Text(text)]) == []
  {
    assert [Text(text)][..0] == [];
  }

  /**
   * In this world the second round's call is answered that a confirmation is pending, the turn
   * goes on, and the model is asked a third time.
   */
  lemma PendingTurnGoesOn()
    ensures var w := PersistentWorld();
            var first := RoundStep(Begun([HELLO]), w.model([HELLO]), false, w);
            var second := RoundStep(first, w.model(first.transcript), false, w);
            && first.progress.awaiting && !first.over
            && second.transcript == first.transcript + [Message(Assistant, [SECOND_CALL]), Message(User, [ToolResult("b", PENDING, true)])]
            && !second.over
            && Rounds(Begun([HELLO]), 0, w).transcript == second.transcript + [Message(Assistant, [WAITING])]
            && Rounds(Begun([HELLO]), 0, w).progress.failure == None
  {
    var w := PersistentWorld();
    var begun := Begun([HELLO]);
    OneUse(begun.progress, FIRST_CALL, w);
    var first := RoundStep(begun, w.model([HELLO]), false, w);
    var asked := first.progress.(results := []);
    OneUse(asked, SECOND_CALL, w);
    assert RunBlocks(asked, [SECOND_CALL], w).results == [ToolResult("b", PENDING, true)];
    var second := RoundStep(first, w.model(first.transcript), false, w);
    OneText("I am waiting for you.");
    hide RunBlocks;
    hide Unrun;
    assert |first.transcript| == 3 && |second.transcript| == 5;
    var third := RoundStep(second, w.model(second.transcript), false, w);
    assert third.over && third.transcript == second.transcript + [Message(Assistant, [WAITING])];
    assert first.progress.awaiting && second.transcript
        == first.transcript + [Message(Assistant, [SECOND_CALL]), Message(User, [ToolResult("b", PENDING, true)])];
    hide RoundStep;
    assert Rounds(third, 3, w) == third;
    assert Rounds(second, 2, w) == third;
    assert Rounds(first, 1, w) == third;
    assert Rounds(begun, 0, w) == third;
  }

  /** A turn that uses every round without the model stopping fails with the tool limit: it never ends silently. */
  lemma {:induction false} ExhaustedTurnFails(t: Turn, round: nat, w: World)
    requires round < w.limits.maxToolRounds && !t.over
    ensures var last := Rounds(t, round, w); last.over || last.progress.failure == Some(ToolLimit)
    decreases w.limits.maxToolRounds - round
  {
    hide RunBlocks;
    hide Unrun;
    var next := RoundStep(t, w.model(t.transcript), round == w.limits.maxToolRounds - 1, w);
    if round + 1 < w.limits.maxToolRounds && !next.over {
      ExhaustedTurnFails(next, round + 1, w);
    }
  }

  // ---- The conversation ---------------------------------------------------------------------------------

  /** conversationFull: a bound of zero or less is no bound. */
  predicate Full(limits: Limits, turns: int, contextTokens: int) {
    (limits.maxTurns > 0 && turns >= limits.maxTurns) || (limits.maxContextTokens > 0 && contextTokens >= limits.maxContextTokens)
  }

  /** What the operator is told at the end. */
  datatype Ending = Failed(failure: Failure) | Replayed | Finished(stop: string)

  class Conversation {
    var messages: seq<Message>
    var seen: set<string>
    var closed: bool
    var turns: nat

    constructor ()
      ensures messages == [] && WellFormed(messages) && !closed && turns == 0 && seen == {}
    {
      messages, seen, closed, turns := [], {}, false, 0;
    }

    predicate Refuses(text: string, limits: Limits)
      reads this
    {
      text != "" && (closed || Full(limits, turns, 0))
    }

    /** Settling a confirmation, or the operator, adds a plain text message. */
    method Say(text: string)
      requires WellFormed(messages)
      modifies `messages
      ensures messages == old(messages) + [Message(User, [Text(text)])] && WellFormed(messages)
    {
      TextAnswersNothing(text);
      AppendPaired(messages, Message(User, [Text(text)]));
      messages := messages + [Message(User, [Text(text)])];
    }

    /**
     * RunTurn. Messages are saved as they are added to the transcript; a message already seen
     * is replayed, not run again.
     */
    method RunTurn(text: string, clientId: string, w: World) returns (ending: Ending, ghost end: Turn)
      requires WellFormed(messages)
      modifies this
      ensures WellFormed(messages) && old(messages) <= messages
      ensures old(Refuses(text, w.limits)) <==>
                text != "" && (old(closed) || (w.limits.maxTurns > 0 && old(turns) >= w.limits.maxTurns))
      ensures old(Refuses(text, w.limits)) ==> ending == Failed(ConversationFull) && messages == old(messages) && closed
      ensures !old(Refuses(text, w.limits)) && clientId != "" && clientId in old(seen) ==> ending == Replayed && messages == old(messages)
      ensures !old(Refuses(text, w.limits)) && (clientId == "" || clientId !in old(seen)) ==>
                && end == Rounds(Begun(if text == "" then old(messages) else old(messages) + [Message(User, [Text(text)])]), 0, w)
                && messages == end.transcript && turns == old(turns) + 1 && Capped(end.progress, w)
                && AllReported(messages, |old(messages)| + (if text == "" then 0 else 1), end.progress.ran, w)
                && (w.limits.maxToolRounds > 0 ==> exists n | 0 <= n <= |messages| :: EndedAt(end, n, w))
                && (ending.Failed? <==> end.progress.failure.Some?)
                && (ending.Failed? ==> Some(ending.failure) == end.progress.failure)
                && (ending.Finished? ==> ending.stop == if end.progress.awaiting then "confirmation" else end.stop)
                && (text != "" && clientId != "" ==> clientId in seen)
                && (closed <==> old(closed) || (!end.progress.awaiting
                                                && ((w.limits.maxTurns > 0 && turns >= w.limits.maxTurns)
                                                    || (w.limits.maxContextTokens > 0 && end.contextTokens >= w.limits.maxContextTokens))))
    {
      hide Rounds;
      hide RoundStep;
      hide Capped;
      hide AllReported;
      hide EndedAt;
      end := Begun(messages);
      if text != "" && (closed || Full(w.limits, turns, 0)) {
        closed := true;
        return Failed(ConversationFull), end;
      }
      if clientId != "" && clientId in seen {
        return Replayed, end;
      }
      if text != "" {
        Say(text);
        if clientId != "" {
          seen := seen + {clientId};
        }
      }
      var turn := Begun(messages);
      ghost var begun := turn;
      NothingRunIsCapped(messages, w);
      turn := RunRounds(turn, w);
      end := turn;
      TurnKeepsWellFormed(begun, 0, w);
      TurnKeepsCaps(begun, 0, w);
      BegunReports(begun.transcript, w);
      TurnReportsEveryCall(begun, 0, |begun.transcript|, w);
      if w.limits.maxToolRounds > 0 { TurnEndsAsItsLastRoundDid(begun, 0, w); }
      turns := turns + 1;
      if !turn.progress.awaiting && Full(w.limits, turns, turn.contextTokens) {
        closed := true;
      }
      match turn.progress.failure
      case Some(failure) => return Failed(failure), end;
      case None => return Finished(if turn.progress.awaiting then "confirmation" else turn.stop), end;
    }

    /** The rounds loop; the saved messages are the transcript throughout. */
    method RunRounds(begun: Turn, w: World) returns (turn: Turn)
      requires messages == begun.transcript && !begun.over
      modifies `messages
      ensures turn == Rounds(begun, 0, w) && messages == turn.transcript
    {
      hide RoundStep;
      hide RunBlocks;
      hide Unrun;
      turn := begun;
      var round := 0;
      while round < w.limits.maxToolRounds && !turn.over
        invariant messages == turn.transcript
        invariant Rounds(begun, 0, w) == Rounds(turn, round, w)
        decreases w.limits.maxToolRounds - round
      {
        var reply := w.model(turn.transcript);
        turn := RunRound(turn, reply, round == w.limits.maxToolRounds - 1, w);
        round := round + 1;
      }
    }

    /** One round: save the reply, run or answer its tools, save the results. */
    method RunRound(before: Turn, reply: Reply, lastRound: bool, w: World) returns (turn: Turn)
      requires messages == before.transcript
      modifies `messages
      ensures turn == RoundStep(before, reply, lastRound, w) && messages == turn.transcript
      ensures !before.over && reply == w.model(before.transcript) ==>
                forall base :: Reporting(before, base, w) ==> Reporting(turn, base, w)
    {
      if !before.over && reply == w.model(before.transcript) {
        forall base | Reporting(before, base, w) ensures Reporting(RoundStep(before, reply, lastRound, w), base, w) {
          RoundReports(before, lastRound, base, w);
        }
      }
      hide Reporting;
      hide RunBlock;
      hide Unrun;
      turn := before;
      if reply.ModelError? {
        turn := turn.(progress := turn.progress.(failure := Some(reply.failure)), over := true);
        return;
      }
      var blocks := reply.blocks;
      messages := messages + [Message(Assistant, blocks)];
      turn := turn.(transcript := messages, contextTokens := reply.contextTokens);
      if reply.stop != "tool_use" {
        if reply.stop == "refusal" {
          turn := turn.(progress := turn.progress.(failure := Some(DeclinedByModel)));
        } else {
          turn := turn.(stop := reply.stop);
        }
        AnswerUnrun(blocks);
        turn := turn.(transcript := messages, over := true);
        return;
      }
      var p := turn.progress.(results := []);
      ghost var start := p;
      for i := 0 to |blocks|
        invariant p == RunBlocks(start, blocks[..i], w)
        invariant messages == turn.transcript
      {
        assert blocks[..i + 1][..i] == blocks[..i];
        p := RunTool(p, blocks[i], w);
      }
      assert blocks[..|blocks|] == blocks;
      messages := messages + [Message(User, p.results)];
      var over := p.failure.Some?;
      if !over && lastRound {
        p := p.(failure := Some(ToolLimit));
      }
      turn := turn.(transcript := messages, progress := p, over := over);
    }

    /** answerUnrun: no message when there is nothing to answer. */
    method AnswerUnrun(blocks: seq<Block>)
      modifies `messages
      ensures messages == if Unrun(blocks) == [] then old(messages) else old(messages) + [Message(User, Unrun(blocks))]
    {
      var results: seq<Block> := [];
      for i := 0 to |blocks|
        invariant results == Unrun(blocks[..i])
      {
        assert blocks[..i + 1][..i] == blocks[..i];
        if blocks[i].ToolUse? {
          results := results + [ToolResult(blocks[i].id, CUT_OFF, true)];
        }
      }
      assert blocks[..|blocks|] == blocks;
      if |results| == 0 {
        return;
      }
      messages := messages + [Message(User, results)];
    }
  }

  /** The body of the loop over a round's blocks. */
  method RunTool(before: Progress, block: Block, w: World) returns (p: Progress)
    ensures p == RunBlock(before, block, w)
  {
    p := before;
    if !block.ToolUse? {
      return;
    }
    p := p.(calls := p.calls + 1);
    var content, isError;
    if p.calls > w.limits.maxToolCalls {
      if p.failure == None {
        p := p.(failure := Some(ToolLimit));
      }
      content, isError := LIMIT_REACHED, true;
    } else if p.awaiting {
      content, isError := PENDING, true;
    } else {
      var r := w.execute(p.calls, block);
      content, isError := r.content, r.isError;
      p := p.(ran := p.ran + [(p.calls, block)]);
      if r.confirmation {
        p := p.(awaiting := true);
      }
      if r.unauthorized {
        p := p.(failure := Some(SessionExpired));
      }
    }
    p := p.(results := p.results + [ToolResult(block.id, content, isError)]);
  }

  lemma TextAnswersNothing(text: string)
    ensures Results([Text(text)]) == [] && Uses([Text(text)]) == []
  {
    assert [Text(text)][..0] == [];
  }

  lemma NothingRunIsCapped(messages: seq<Message>, w: World)
    ensures Capped(Begun(messages).progress, w)
  {
  }
}
