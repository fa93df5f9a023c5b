/**
 * Callers running side by side (database/idempotency.go): each statement of each call is one
 * step, in any order, with the clock and the sweep running between them.
 */
module IdempotencyRuns {
  import opened Options
  import opened Idempotency

  /** `until` is when the claim's record expires; None when no record was found or made. */
  datatype Call =
    | Reading(key: Key, fingerprint: string, began: int, ttl: int)
    | Holding(key: Key, fingerprint: string, until: Option<int>)
    | Answered(key: Key, fingerprint: string, outcome: Outcome)
    | Finished

  /** A response that was stored for a request. */
  datatype Answer = Answer(key: Key, fingerprint: string, status: int, body: string)

  datatype Sys = Sys(now: int, records: Records, calls: map<nat, Call>, answers: set<Answer>)

  datatype Step =
    | Tick(elapsed: nat)
    | TryInsert(c: nat, key: Key, fingerprint: string, ttl: int)
    | TryRead(c: nat)
    | Complete(c: nat, status: int, body: Body)
    | Release(c: nat)
    | Vanish(c: nat)
    | Sweep

  function Next(s: Sys, step: Step): Sys {
    match step
    case Tick(elapsed) => s.(now := s.now + elapsed)
    case TryInsert(c, key, fingerprint, ttl) =>
      if c in s.calls then s
      else (match Insert(s.records, key, fingerprint, s.now, ttl, c)
            case Some(inserted) =>
              s.(records := inserted, calls := s.calls[c := Holding(key, fingerprint, Some(s.now + Lifetime(ttl)))])
            case None => s.(calls := s.calls[c := Reading(key, fingerprint, s.now, ttl)]))
    case TryRead(c) =>
      if c !in s.calls || !s.calls[c].Reading? then s
      else
        var r := s.calls[c];
        var (after, outcome) := Read(s.records, r.key, r.fingerprint, r.began, r.ttl, c);
        var until := if r.key in s.records then Some(r.began + Lifetime(r.ttl)) else None;
        s.(records := after,
           calls := s.calls[c := if outcome == Proceed then Holding(r.key, r.fingerprint, until)
                                 else Answered(r.key, r.fingerprint, outcome)])
    case Complete(c, status, body) =>
      if c !in s.calls || !s.calls[c].Holding? then s
      else
        var h := s.calls[c];
        s.(records := CompleteRow(s.records, h.key, status, body), calls := s.calls[c := Finished],
           answers := if status < 500 then s.answers + {Answer(h.key, h.fingerprint, status, StoredBody(body))} else s.answers)
    case Release(c) =>
      if c !in s.calls || !s.calls[c].Holding? then s
      else s.(records := ReleaseRow(s.records, s.calls[c].key), calls := s.calls[c := Finished])
    case Vanish(c) => if c in s.calls then s.(calls := s.calls[c := Finished]) else s
    case Sweep => s.(records := Purge(s.records, s.now))
  }

  function Run(s: Sys, steps: seq<Step>): Sys
    decreases |steps|
  {
    if steps == [] then s else Run(Next(s, steps[0]), steps[1..])
  }

  /** Every claim held has a record, and its record has not expired. */
  predicate Timely(s: Sys) {
    forall c :: c in s.calls && s.calls[c].Holding? ==> s.calls[c].until.Some? && s.now <= s.calls[c].until.value
  }

  /** Timely all the way. */
  ghost predicate TimelyRun(s: Sys, steps: seq<Step>)
    decreases |steps|
  {
    Timely(s) && (steps == [] || TimelyRun(Next(s, steps[0]), steps[1..]))
  }

  ghost predicate Backed(s: Sys, c: nat)
    requires c in s.calls && s.calls[c].Holding?
  {
    var h := s.calls[c];
    h.until.Some? && h.key in s.records && s.records[h.key] == Record(h.fingerprint, InProgress, h.until.value, c)
  }

  ghost predicate Inv(s: Sys) {
    && (forall c :: c in s.calls && s.calls[c].Reading? ==> s.calls[c].began <= s.now)
    && (forall c :: c in s.calls && s.calls[c].Holding? ==> Backed(s, c))
    && (forall key :: key in s.records && s.records[key].state.Completed? ==> Stored(s, key))
    && (forall c :: c in s.calls && s.calls[c].Answered? && s.calls[c].outcome.Replay? ==> Honest(s, s.calls[c]))
  }

  ghost predicate Stored(s: Sys, key: Key)
    requires key in s.records && s.records[key].state.Completed?
  {
    var r := s.records[key];
    r.state.status < 500 && Answer(key, r.fingerprint, r.state.status, r.state.body) in s.answers
  }

  /** A replay is a stored response to a request with the same key and fingerprint. */
  ghost predicate Honest(s: Sys, call: Call)
    requires call.Answered? && call.outcome.Replay?
  {
    call.outcome.status < 500 && Answer(call.key, call.fingerprint, call.outcome.status, call.outcome.body) in s.answers
  }

  lemma InsertKeeps(s: Sys, c: nat, key: Key, fingerprint: string, ttl: int)
    requires Inv(s) && Timely(s)
    ensures Inv(Next(s, TryInsert(c, key, fingerprint, ttl)))
  {
  }

  lemma ReadKeeps(s: Sys, c: nat)
    requires Inv(s) && Timely(s) && Timely(Next(s, TryRead(c)))
    ensures Inv(Next(s, TryRead(c)))
  {
    if c in s.calls && s.calls[c].Reading? {
      var r := s.calls[c];
      var after := Next(s, TryRead(c));
      assert forall d :: d in s.calls && d != c ==> after.calls[d] == s.calls[d];
      if r.key in s.records && s.records[r.key].expiresAt < r.began {
        forall d | d in s.calls && s.calls[d].Holding? ensures s.calls[d].key != r.key {
          assert Backed(s, d);
        }
      }
    }
  }

  lemma FinishKeeps(s: Sys, step: Step)
    requires Inv(s) && (step.Complete? || step.Release?)
    ensures Inv(Next(s, step))
  {
    var c := step.c;
    if c in s.calls && s.calls[c].Holding? {
      assert Backed(s, c);
      var after := Next(s, step);
      forall d | d in after.calls && after.calls[d].Holding? ensures Backed(after, d) {
        assert Backed(s, d);
      }
    }
  }

  lemma SweepKeeps(s: Sys)
    requires Inv(s) && Timely(s)
    ensures Inv(Next(s, Sweep))
  {
    forall d | d in s.calls && s.calls[d].Holding? ensures Backed(Next(s, Sweep), d) {
      assert Backed(s, d);
    }
  }

  lemma StepKeeps(s: Sys, step: Step)
    requires Inv(s) && Timely(s) && Timely(Next(s, step))
    ensures Inv(Next(s, step))
  {
    match step
    case Tick(_) =>
    case TryInsert(c, key, fingerprint, ttl) => InsertKeeps(s, c, key, fingerprint, ttl);
    case TryRead(c) => ReadKeeps(s, c);
    case Complete(_, _, _) => FinishKeeps(s, step);
    case Release(_) => FinishKeeps(s, step);
    case Vanish(_) =>
    case Sweep => SweepKeeps(s);
  }

  function Start(now: int): Sys { Sys(now, map[], map[], {}) }

  lemma {:induction false} RunKeeps(s: Sys, steps: seq<Step>)
    requires Inv(s) && TimelyRun(s, steps)
    ensures Inv(Run(s, steps)) && Timely(Run(s, steps))
    decreases |steps|
  {
    if steps != [] {
      assert Timely(Next(s, steps[0]));
      StepKeeps(s, steps[0]);
      RunKeeps(Next(s, steps[0]), steps[1..]);
    }
  }

  /** In every timely run a key has at most one holder. */
  lemma OneHolderPerKey(now: int, steps: seq<Step>, c: nat, d: nat)
    requires TimelyRun(Start(now), steps)
    requires var s := Run(Start(now), steps);
             c in s.calls && d in s.calls && s.calls[c].Holding? && s.calls[d].Holding? && s.calls[c].key == s.calls[d].key
    ensures c == d
  {
    RunKeeps(Start(now), steps);
    assert Backed(Run(Start(now), steps), c) && Backed(Run(Start(now), steps), d);
  }

  /** In every timely run a replay is what an earlier request with the same key and fingerprint was answered; never a 5xx. */
  lemma ReplayIsItsOwnAnswer(now: int, steps: seq<Step>, c: nat)
    requires TimelyRun(Start(now), steps)
    requires var s := Run(Start(now), steps); c in s.calls && s.calls[c].Answered? && s.calls[c].outcome.Replay?
    ensures Honest(Run(Start(now), steps), Run(Start(now), steps).calls[c])
  {
    RunKeeps(Start(now), steps);
  }

  // ---- Why the condition is needed ---------------------------------------------------------------------

  /** A second caller proceeds at once exactly when the key has no unexpired record, whoever holds it. */
  lemma SecondProceedsExactlyWhenUnbacked(s: Sys, d: nat, key: Key, fingerprint: string, ttl: int)
    requires d !in s.calls
    ensures Next(Next(s, TryInsert(d, key, fingerprint, ttl)), TryRead(d)).calls[d].Holding?
       <==> key !in s.records || s.records[key].expiresAt < s.now
  {
  }

  /**
   * A claim that was answered by a read of nothing has no record: whoever comes next under the
   * same key proceeds too, however soon.
   */
  lemma ReadOfNothingAdmitsASecond(s: Sys, c: nat, d: nat, fingerprint: string, ttl: int)
    requires c in s.calls && s.calls[c].Reading? && s.calls[c].key !in s.records && d !in s.calls
    ensures var key := s.calls[c].key;
            var after := Next(Next(s, TryRead(c)), TryInsert(d, key, fingerprint, ttl));
            c != d && after.calls[c].Holding? && after.calls[d].Holding?
            && after.calls[c].key == key && after.calls[d].key == key
  {
  }

  /** The branch is reached: two callers of one key, and the first lets go between the other's two statements. */
  lemma ReadOfNothingIsReached(key: Key, fingerprint: string)
    ensures var s := Run(Start(0), [TryInsert(0, key, fingerprint, 60), TryInsert(1, key, fingerprint, 60), Release(0)]);
            Inv(s) && Timely(s) && Misses(s, TryRead(1)) && s.calls[1] == Reading(key, fingerprint, 0, 60)
  {
    var s1 := Next(Start(0), TryInsert(0, key, fingerprint, 60));
    var s2 := Next(s1, TryInsert(1, key, fingerprint, 60));
    assert s2.calls[0] == Holding(key, fingerprint, Some(60)) && s2.calls[1] == Reading(key, fingerprint, 0, 60);
    assert s2.records == map[key := Claimed(fingerprint, 0, 60, 0)];
    var s3 := Next(s2, Release(0));
    assert s3.records == map[] && s3.calls[1] == s2.calls[1];
    ThreeSteps(Start(0), TryInsert(0, key, fingerprint, 60), TryInsert(1, key, fingerprint, 60), Release(0));
  }

  lemma ThreeSteps(s: Sys, a: Step, b: Step, c: Step)
    ensures Run(s, [a, b, c]) == Next(Next(Next(s, a), b), c)
  {
    hide Next;
    assert [a, b, c][1..] == [b, c] && [b, c][1..] == [c] && [c][1..] == [];
    assert Run(s, [a, b, c]) == Run(Next(s, a), [b, c]);
    assert Run(Next(s, a), [b, c]) == Run(Next(Next(s, a), b), [c]);
  }

  // ---- Exactly when the next read keeps holders apart ------------------------------------------------------

  /** No claim outlives the record it has. */
  predicate Lasting(s: Sys) {
    forall c :: c in s.calls && s.calls[c].Holding? && s.calls[c].until.Some? ==> s.now <= s.calls[c].until.value
  }

  /** The read-of-nothing branch. */
  predicate Misses(s: Sys, step: Step) {
    step.TryRead? && step.c in s.calls && s.calls[step.c].Reading? && s.calls[step.c].key !in s.records
  }

  /** A run in which claims are finished before their records expire and no read finds nothing. */
  ghost predicate LastingRun(s: Sys, steps: seq<Step>)
    decreases |steps|
  {
    Lasting(s) && (steps == [] || (!Misses(s, steps[0]) && LastingRun(Next(s, steps[0]), steps[1..])))
  }

  ghost predicate Exclusive(s: Sys) {
    forall c, d | c in s.calls && d in s.calls && s.calls[c].Holding? && s.calls[d].Holding? ::
      s.calls[c].key == s.calls[d].key ==> c == d
  }

  /** Holders stay apart in everything that can follow. */
  ghost predicate AlwaysExclusive(s: Sys) {
    forall steps :: LastingRun(s, steps) ==> Exclusive(Run(s, steps))
  }

  lemma HoldersAreExclusive(s: Sys)
    requires Inv(s)
    ensures Exclusive(s)
  {
    forall c, d | c in s.calls && d in s.calls && s.calls[c].Holding? && s.calls[d].Holding? && s.calls[c].key == s.calls[d].key
      ensures c == d
    {
      assert Backed(s, c) && Backed(s, d);
    }
  }

  lemma LastingStaysTimely(s: Sys, step: Step)
    requires Inv(s) && Timely(s) && !Misses(s, step) && Lasting(Next(s, step))
    ensures Timely(Next(s, step))
  {
  }

  lemma {:induction false} LastingRunIsExclusive(s: Sys, steps: seq<Step>)
    requires Inv(s) && Timely(s) && LastingRun(s, steps)
    ensures Exclusive(Run(s, steps))
    decreases |steps|
  {
    if steps == [] {
      HoldersAreExclusive(s);
    } else {
      LastingStaysTimely(s, steps[0]);
      StepKeeps(s, steps[0]);
      LastingRunIsExclusive(Next(s, steps[0]), steps[1..]);
    }
  }

  lemma {:induction false} LastingRunKeeps(s: Sys, steps: seq<Step>)
    requires Inv(s) && Timely(s) && LastingRun(s, steps)
    ensures Inv(Run(s, steps))
    decreases |steps|
  {
    if steps != [] {
      LastingStaysTimely(s, steps[0]);
      StepKeeps(s, steps[0]);
      LastingRunKeeps(Next(s, steps[0]), steps[1..]);
    }
  }

  /** A call number above all those in use. */
  lemma UnusedCall(calls: map<nat, Call>) returns (d: nat)
    ensures d !in calls && d + 1 !in calls
  {
    d := AboveAll(calls.Keys);
  }

  lemma {:induction false} AboveAll(ids: set<nat>) returns (d: nat)
    ensures forall k :: k in ids ==> k < d
  {
    if ids == {} {
      return 0;
    }
    var k :| k in ids;
    var below := AboveAll(ids - {k});
    assert forall j :: j in ids ==> j == k || j in ids - {k};
    return if k < below then below else k + 1;
  }

  /** A fingerprint longer than every one that has been answered, and than the given one. */
  lemma {:induction false} UnansweredFingerprint(answers: set<Answer>, other: string) returns (fingerprint: string)
    ensures fingerprint != other && forall a :: a in answers ==> a.fingerprint != fingerprint
    ensures |fingerprint| > |other| && forall a :: a in answers ==> |fingerprint| > |a.fingerprint|
  {
    if answers == {} {
      return other + "0";
    }
    var a :| a in answers;
    var shorter := UnansweredFingerprint(answers - {a}, other);
    return shorter + a.fingerprint;
  }

  /**
   * Where every claim so far has its record, the next read keeps holders apart in everything
   * that can follow exactly when it finds a record. (What follows is any run whose claims finish
   * before their records expire and whose own reads find records.)
   */
  lemma ReadKeepsHoldersApartExactlyWhenItFinds(s: Sys, c: nat)
    requires Inv(s) && Timely(s) && c in s.calls && s.calls[c].Reading?
    ensures AlwaysExclusive(Next(s, TryRead(c))) <==> s.calls[c].key in s.records
  {
    hide Inv;
    var after := Next(s, TryRead(c));
    var key := s.calls[c].key;
    if key in s.records {
      forall steps | LastingRun(after, steps) ensures Exclusive(Run(after, steps)) {
        LastingStaysTimely(s, TryRead(c));
        StepKeeps(s, TryRead(c));
        LastingRunIsExclusive(after, steps);
      }
    } else {
      var d := UnusedCall(s.calls);
      var step := TryInsert(d, key, "", 1);
      var both := Next(after, step);
      assert [step][1..] == [];
      assert Run(after, [step]) == both by {
        assert Run(both, []) == both;
      }
      assert LastingRun(both, []) && LastingRun(after, [step]);
      assert both.calls[c].Holding? && both.calls[d].Holding? && both.calls[c].key == both.calls[d].key;
      assert !Exclusive(both);
      assert LastingRun(after, [step]) && !Exclusive(Run(after, [step]));
      assert !AlwaysExclusive(after);
    }
  }

  // ---- And replays honest -----------------------------------------------------------------------------------

  ghost predicate AllHonest(s: Sys) {
    forall c :: c in s.calls && s.calls[c].Answered? && s.calls[c].outcome.Replay? ==> Honest(s, s.calls[c])
  }

  /** Replays are honest in everything that can follow. */
  ghost predicate AlwaysHonest(s: Sys) {
    forall steps :: LastingRun(s, steps) ==> AllHonest(Run(s, steps))
  }

  /**
   * After a read of nothing: a different request under the key is claimed by d, answered by c,
   * and its retry e is sent c's response.
   */
  lemma CrossedAnswer(s: Sys, c: nat, d: nat, fingerprint: string)
    requires c in s.calls && s.calls[c].Holding? && s.calls[c].until == None && s.calls[c].key !in s.records && Lasting(s)
    requires d !in s.calls && d + 1 !in s.calls && fingerprint != s.calls[c].fingerprint
    requires forall a :: a in s.answers ==> a.fingerprint != fingerprint
    ensures var key := s.calls[c].key;
            var steps := [TryInsert(d, key, fingerprint, 60), Complete(c, 200, Other("")), TryInsert(d + 1, key, fingerprint, 60),
                          TryRead(d + 1)];
            LastingRun(s, steps) && !AllHonest(Run(s, steps))
  {
    var key := s.calls[c].key;
    var a, b := TryInsert(d, key, fingerprint, 60), Complete(c, 200, Other(""));
    var e, f := TryInsert(d + 1, key, fingerprint, 60), TryRead(d + 1);
    var s1 := Next(s, a);
    assert s1.records[key] == Claimed(fingerprint, s.now, 60, d) && s1.calls[c] == s.calls[c];
    var s2 := Next(s1, b);
    assert s2.records[key] == Record(fingerprint, Completed(200, "{}"), s.now + 60, d);
    var s3 := Next(s2, e);
    assert s3.calls[d + 1] == Reading(key, fingerprint, s.now, 60) && s3.records == s2.records;
    var s4 := Next(s3, f);
    assert s4.calls[d + 1] == Answered(key, fingerprint, Replay(200, "{}"));
    assert !Honest(s4, s4.calls[d + 1]);
    assert !AllHonest(s4);
    assert Lasting(s1) && Lasting(s2) && Lasting(s3) && Lasting(s4) && !Misses(s3, f);
    FourSteps(s, a, b, e, f);
  }

  lemma FourSteps(s: Sys, a: Step, b: Step, c: Step, d: Step)
    ensures Run(s, [a, b, c, d]) == Next(Next(Next(Next(s, a), b), c), d)
    ensures LastingRun(s, [a, b, c, d]) <==>
            Lasting(s) && !Misses(s, a) && Lasting(Next(s, a)) && !Misses(Next(s, a), b)
            && Lasting(Next(Next(s, a), b)) && !Misses(Next(Next(s, a), b), c)
            && Lasting(Next(Next(Next(s, a), b), c)) && !Misses(Next(Next(Next(s, a), b), c), d)
            && Lasting(Next(Next(Next(Next(s, a), b), c), d))
  {
    hide Next;
    hide Lasting;
    hide Misses;
    var x, y := Next(s, a), Next(Next(s, a), b);
    var z := Next(y, c);
    assert [a, b, c, d][1..] == [b, c, d] && [b, c, d][1..] == [c, d] && [c, d][1..] == [d] && [d][1..] == [];
    assert Run(s, [a, b, c, d]) == Run(x, [b, c, d]) == Run(y, [c, d]) == Run(z, [d]);
    assert LastingRun(z, [d]) <==> Lasting(z) && !Misses(z, d) && LastingRun(Next(z, d), []);
    assert LastingRun(y, [c, d]) <==> Lasting(y) && !Misses(y, c) && LastingRun(z, [d]);
    assert LastingRun(x, [b, c, d]) <==> Lasting(x) && !Misses(x, b) && LastingRun(y, [c, d]);
  }

  /**
   * Where every claim so far has its record, every replay that can follow the next read answers
   * its own request exactly when the read finds a record.
   */
  lemma ReadKeepsReplaysHonestExactlyWhenItFinds(s: Sys, c: nat)
    requires Inv(s) && Timely(s) && c in s.calls && s.calls[c].Reading?
    ensures AlwaysHonest(Next(s, TryRead(c))) <==> s.calls[c].key in s.records
  {
    hide LastingRun;
    hide Run;
    var after := Next(s, TryRead(c));
    if s.calls[c].key in s.records {
      forall steps | LastingRun(after, steps) ensures AllHonest(Run(after, steps)) {
        HonestAfterAFoundRead(s, c, steps);
      }
    } else {
      assert after.calls[c].Holding? && after.calls[c].until == None && Lasting(after);
      var d := UnusedCall(after.calls);
      var fingerprint := UnansweredFingerprint(after.answers, after.calls[c].fingerprint);
      CrossedAnswer(after, c, d, fingerprint);
      assert !AlwaysHonest(after);
    }
  }

  lemma HonestAfterAFoundRead(s: Sys, c: nat, steps: seq<Step>)
    requires Inv(s) && Timely(s) && !Misses(s, TryRead(c)) && LastingRun(Next(s, TryRead(c)), steps)
    ensures AllHonest(Run(Next(s, TryRead(c)), steps))
  {
    hide Next;
    LastingStaysTimely(s, TryRead(c));
    StepKeeps(s, TryRead(c));
    LastingRunKeeps(Next(s, TryRead(c)), steps);
  }

  // ---- A stored answer stands ---------------------------------------------------------------------------------

  predicate Began(s: Sys) {
    forall c :: c in s.calls && s.calls[c].Reading? ==> s.calls[c].began <= s.now
  }

  predicate CompletedAs(s: Sys, key: Key, r: Record) { key in s.records && s.records[key] == r && r.state.Completed? }

  predicate HoldsKey(s: Sys, c: nat, key: Key) { c in s.calls && s.calls[c].Holding? && s.calls[c].key == key }

  /** What a call of the key has been told, if it has been told anything. */
  predicate Told(s: Sys, c: nat, key: Key) { c in s.calls && s.calls[c].Answered? && s.calls[c].key == key }

  function Due(r: Record, fingerprint: string): Outcome
    requires r.state.Completed?
  {
    if fingerprint == r.fingerprint then Replay(r.state.status, r.state.body) else Reuse
  }

  /** What can have happened under a key whose answer stands. */
  ghost predicate Stands(s: Sys, after: Sys, key: Key, r: Record)
    requires r.state.Completed?
  {
    && CompletedAs(after, key, r)
    && (forall c :: HoldsKey(after, c, key) ==> HoldsKey(s, c, key))
    && (forall c :: Told(after, c, key) ==>
          (Told(s, c, key) && after.calls[c] == s.calls[c]) || after.calls[c].outcome == Due(r, after.calls[c].fingerprint))
  }

  lemma StepStands(s: Sys, step: Step, key: Key, r: Record)
    requires Began(s) && CompletedAs(s, key, r) && Next(s, step).now <= r.expiresAt
    ensures Began(Next(s, step)) && Stands(s, Next(s, step), key, r)
  {
  }

  lemma {:induction false} TimeGoesOn(s: Sys, steps: seq<Step>)
    ensures s.now <= Run(s, steps).now
    decreases |steps|
  {
    if steps != [] { TimeGoesOn(Next(s, steps[0]), steps[1..]); }
  }

  /**
   * Once a request has been answered below 500, then until its record expires no call of the
   * key runs again, whatever else happens: each one is sent the stored response, or refused as
   * a different request.
   */
  lemma {:induction false} AnswerStands(s: Sys, steps: seq<Step>, key: Key, r: Record)
    requires Began(s) && CompletedAs(s, key, r) && Run(s, steps).now <= r.expiresAt
    ensures Stands(s, Run(s, steps), key, r)
    decreases |steps|
  {
    hide Next;
    if steps != [] {
      var next := Next(s, steps[0]);
      TimeGoesOn(next, steps[1..]);
      StepStands(s, steps[0], key, r);
      AnswerStands(next, steps[1..], key, r);
    }
  }
}
