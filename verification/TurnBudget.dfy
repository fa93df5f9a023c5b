/**
 * The requests one assistant turn may make (assistant/dispatch.go, assistant/poll.go).
 *
 * A tool gets a copy of the turn, a wait gets a copy of that copy, and each copy's counters are
 * written back when it is done. Whatever the tools do, what reaches the router is bounded by the
 * two caps, stays inside the console, and a poll only reads.
 */
module TurnBudget {
  import opened Text

  const MAX_CALLS := 48
  const MAX_POLLS := 60
  const CONSOLE := "/api/v1/console/"

  datatype Request = Request(verb: string, path: string)

  /** A request as the router received it. */
  datatype Sent = Sent(request: Request, poll: bool)

  /** What a tool does: one request, or a wait that looks again and again, each look some requests. */
  datatype Action = Ask(request: Request) | Wait(steps: seq<seq<Request>>)

  /** A call of a tool: what its Confirm does, none for a tool without one, whether it plans, and what the tool does. */
  datatype ToolRun = ToolRun(confirm: seq<Action>, asks: bool, actions: seq<Action>)

  /** Whether a tool's code asks for a request at all. */
  ghost predicate Sends(actions: seq<Action>, request: Request) {
    exists a :: a in actions && Includes(a, request)
  }

  ghost predicate Includes(a: Action, request: Request) {
    match a
    case Ask(asked) => asked == request
    case Wait(steps) => exists step :: step in steps && request in step
  }

  /** A tool whose Confirm plans sends no more than its Confirm does. */
  ghost predicate MaySend(tool: ToolRun, request: Request) {
    Sends(tool.confirm, request) || (!tool.asks && Sends(tool.actions, request))
  }

  function CountOf(log: seq<Sent>, poll: bool): nat {
    if log == [] then 0 else CountOf(log[..|log| - 1], poll) + (if log[|log| - 1].poll == poll then 1 else 0)
  }

  ghost predicate Proper(log: seq<Sent>) {
    forall i :: 0 <= i < |log| ==> HasPrefix(log[i].request.path, CONSOLE) && (log[i].poll ==> log[i].request.verb == "GET")
  }

  class Router {
    var log: seq<Sent>

    constructor ()
      ensures log == []
    {
      log := [];
    }
  }

  /** The budget: what the counters say is what the router has received, within the caps. */
  ghost predicate Accounted(log: seq<Sent>, calls: nat, polls: nat) {
    Proper(log) && calls == CountOf(log, false) <= MAX_CALLS && polls == CountOf(log, true) <= MAX_POLLS
  }

  lemma OneMore(log: seq<Sent>, s: Sent)
    ensures CountOf(log + [s], s.poll) == CountOf(log, s.poll) + 1
    ensures CountOf(log + [s], !s.poll) == CountOf(log, !s.poll)
  {
    assert (log + [s])[..|log|] == log;
  }

  class Turn {
    const router: Router
    const polling: bool
    var calls: nat
    var polls: nat

    constructor (r: Router, counted: nat, polled: nat, asPoll: bool)
      ensures router == r && calls == counted && polls == polled && polling == asPoll
    {
      router, calls, polls, polling := r, counted, polled, asPoll;
    }

    /** Turn.Call, up to the router; false when the request is refused. */
    method Call(request: Request) returns (ok: bool)
      requires Accounted(router.log, calls, polls)
      modifies this, router
      ensures Accounted(router.log, calls, polls)
      ensures router.log == old(router.log) + (if ok then [Sent(request, polling)] else [])
      ensures calls == old(calls) + (if ok && !polling then 1 else 0) && polls == old(polls) + (if ok && polling then 1 else 0)
      ensures ok <==> HasPrefix(request.path, CONSOLE)
                      && (if polling then request.verb == "GET" && old(polls) < MAX_POLLS else old(calls) < MAX_CALLS)
    {
      hide HasPrefix;
      if !HasPrefix(request.path, CONSOLE) {
        return false;
      }
      if polling {
        if request.verb != "GET" || polls >= MAX_POLLS {
          return false;
        }
        polls := polls + 1;
      } else {
        if calls >= MAX_CALLS {
          return false;
        }
        calls := calls + 1;
      }
      OneMore(router.log, Sent(request, polling));
      router.log := router.log + [Sent(request, polling)];
      return true;
    }

    /** One look: the requests a wait's step makes. */
    method Step(requests: seq<Request>)
      requires Accounted(router.log, calls, polls)
      modifies this, router
      ensures Accounted(router.log, calls, polls) && old(router.log) <= router.log
      ensures |router.log| - |old(router.log)| == (calls - old(calls)) + (polls - old(polls)) <= |requests|
      ensures if polling then calls == old(calls) else polls == old(polls)
      ensures forall k | |old(router.log)| <= k < |router.log| :: router.log[k].request in requests
    {
      hide Accounted;
      ghost var before := router.log;
      for i := 0 to |requests|
        invariant forall k | |before| <= k < |router.log| :: router.log[k].request in requests
        invariant Accounted(router.log, calls, polls) && before <= router.log
        invariant |router.log| - |before| == (calls - old(calls)) + (polls - old(polls)) <= i
        invariant if polling then calls == old(calls) else polls == old(polls)
      {
        var _ := Call(requests[i]);
      }
    }

    /**
     * pollUntil: a wait looks through a copy of the turn, until it has looked enough or a look
     * has spent the allowance, and writes only the copy's polls back: it costs the turn no
     * call. With the allowance already spent it looks once, at the turn's own cost.
     */
    method WaitFor(steps: seq<seq<Request>>)
      requires Accounted(router.log, calls, polls)
      modifies this, router
      ensures Accounted(router.log, calls, polls) && old(router.log) <= router.log
      ensures old(polls) < MAX_POLLS ==>
                calls == old(calls) && |router.log| - |old(router.log)| == polls - old(polls)
      ensures old(polls) >= MAX_POLLS ==>
                |router.log| - |old(router.log)| <= if steps == [] then 0 else |steps[0]|
      ensures old(polls) >= MAX_POLLS && !polling ==>
                polls == old(polls) && |router.log| - |old(router.log)| == calls - old(calls)
      ensures forall k | |old(router.log)| <= k < |router.log| :: Includes(Wait(steps), router.log[k].request)
    {
      if polls >= MAX_POLLS {
        if steps != [] {
          Step(steps[0]);
        }
        return;
      }
      var copy := new Turn(router, calls, polls, true);
      ghost var before := router.log;
      for i := 0 to |steps|
        invariant Accounted(router.log, copy.calls, copy.polls) && before <= router.log
        invariant copy.calls == calls == old(calls) && polls == old(polls)
        invariant |router.log| - |before| == copy.polls - polls
        invariant forall k | |before| <= k < |router.log| :: Includes(Wait(steps), router.log[k].request)
        modifies copy, router
      {
        copy.Step(steps[i]);
        if copy.polls >= MAX_POLLS {
          break;
        }
      }
      polls := copy.polls;
    }

    /** What a tool's code does with the turn it is given. */
    method Perform(actions: seq<Action>)
      requires Accounted(router.log, calls, polls)
      modifies this, router
      ensures Accounted(router.log, calls, polls) && old(router.log) <= router.log
      ensures forall k | |old(router.log)| <= k < |router.log| :: Sends(actions, router.log[k].request)
    {
      hide Accounted;
      ghost var before := router.log;
      for i := 0 to |actions|
        invariant Accounted(router.log, calls, polls) && before <= router.log
        invariant forall k | |before| <= k < |router.log| :: Sends(actions, router.log[k].request)
      {
        ghost var already := router.log;
        match actions[i] {
          case Ask(request) => var _ := Call(request);
          case Wait(steps) => WaitFor(steps);
        }
        forall k | |before| <= k < |router.log| ensures Sends(actions, router.log[k].request) {
          if k < |already| {
            assert router.log[k] == already[k];
          } else {
            assert actions[i] in actions && Includes(actions[i], router.log[k].request);
          }
        }
      }
    }

    /**
     * Execute: a tool's Confirm works on the turn itself, and a plan ends the call there;
     * otherwise the tool runs on a copy whose counters are written back.
     */
    method Execute(tool: ToolRun)
      requires Accounted(router.log, calls, polls)
      modifies this, router
      ensures Accounted(router.log, calls, polls) && old(router.log) <= router.log
      ensures forall k | |old(router.log)| <= k < |router.log| :: MaySend(tool, router.log[k].request)
    {
      Perform(tool.confirm);
      if tool.asks {
        return;
      }
      var inner := new Turn(router, calls, polls, polling);
      inner.Perform(tool.actions);
      calls := inner.calls;
      polls := inner.polls;
    }
  }

  /**
   * A whole turn, however many tools it runs and whatever they and their confirmations ask
   * for: at most MAX_CALLS requests and MAX_POLLS polls reach the router, all inside the
   * console, and polls only read. What a planned call asked for beyond its Confirm is not sent.
   */
  method RunTools(tools: seq<ToolRun>) returns (log: seq<Sent>)
    ensures |SentAs(log, false)| <= 48 && |SentAs(log, true)| <= 60
    ensures forall i | 0 <= i < |log| :: "/api/v1/console/" <= log[i].request.path && (log[i].poll ==> log[i].request.verb == "GET")
    ensures forall i | 0 <= i < |log| :: exists tool :: tool in tools && MaySend(tool, log[i].request)
  {
    var router := new Router();
    var turn := new Turn(router, 0, 0, false);
    for i := 0 to |tools|
      invariant Accounted(router.log, turn.calls, turn.polls) && turn.router == router
      invariant fresh(turn) && fresh(router)
      invariant forall k | 0 <= k < |router.log| :: exists tool :: tool in tools && MaySend(tool, router.log[k].request)
    {
      turn.Execute(tools[i]);
    }
    CountIsSize(router.log, true);
    CountIsSize(router.log, false);
    hide CountOf;
    return router.log;
  }

  /** The requests of a log that were polls, or that were not. */
  function SentAs(log: seq<Sent>, poll: bool): set<int> {
    set i | 0 <= i < |log| && log[i].poll == poll
  }

  lemma {:induction false} CountIsSize(log: seq<Sent>, poll: bool)
    ensures CountOf(log, poll) == |SentAs(log, poll)|
  {
    if log != [] {
      var n := |log| - 1;
      CountIsSize(log[..n], poll);
      assert SentAs(log, poll) == if log[n].poll == poll then SentAs(log[..n], poll) + {n} else SentAs(log[..n], poll);
    }
  }
}
