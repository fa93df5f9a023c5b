/** What every run of starts, cancels, expiries, reports and acknowledgements keeps. */
module EnrollmentRuns {
  import opened Options
  import opened Enrollment

  datatype Step =
    | Tick(elapsed: nat)
    | Install(deviceId: int, terminal: Terminal)
    | Know(person: Person)
    | Start(person: Person, deviceId: int, seconds: int, reach: Option<set<int>>)
    | Cancel(person: Person)
    | Expire
    | Deliver(deviceId: int, job: nat)
    | Fail(deviceId: int, job: nat)
    | Complete(person: Person, deviceId: int)
    | Report(person: Person, reporter: Option<int>)
    | RequestByKey(person: Person)
    | Acknowledge(deviceId: int, job: nat, ack: Ack)

  function Next(db: Db, s: Step): Db {
    match s
    case Tick(elapsed) => db.(now := db.now + elapsed)
    case Install(deviceId, terminal) => db.(terminals := db.terminals[deviceId := terminal])
    case Know(person) => db.(people := db.people + {person})
    case Start(person, deviceId, seconds, reach) => StartStep(db, person, deviceId, seconds, reach).0
    case Cancel(person) => CancelStep(db, person).0
    case Expire => ExpireStep(db)
    case Deliver(deviceId, job) => MarkStep(db, DeliveredBy(deviceId, job), InProgress)
    case Fail(deviceId, job) => MarkStep(db, FailedBy(deviceId, job), Failed)
    case Complete(person, deviceId) => MarkStep(db, CompletedBy(deviceId, person), Completed)
    case Report(person, reporter) => ReportStep(db, person, reporter).0
    case RequestByKey(person) => RequestStep(db, person).0
    case Acknowledge(deviceId, job, ack) => AckStep(db, deviceId, job, ack)
  }

  function Run(db: Db, steps: seq<Step>): Db
    decreases |steps|
  {
    if steps == [] then db else Run(Next(db, steps[0]), steps[1..])
  }

  function Empty(now: int): Db { Db(now, {}, map[], [], []) }

  // ---- The invariant ------------------------------------------------------------------------

  ghost predicate JobsDiffer(db: Db) {
    && (forall i :: 0 <= i < |db.enrolments| && db.enrolments[i].job.Some? ==> db.enrolments[i].job.value < |db.jobs|)
    && (forall i, j :: 0 <= i < j < |db.enrolments| && db.enrolments[i].job.Some? ==> db.enrolments[i].job != db.enrolments[j].job)
  }

  /** A live enrolment is its person's newest. */
  ghost predicate LiveIsNewest(es: seq<Enrolment>) {
    forall i, j :: 0 <= i < j < |es| && es[i].person == es[j].person ==> !Live(es[i])
  }

  predicate Withdrawn(e: Enrolment) { e.status == Cancelled || e.status == Expired }

  /** The job, if there is one, is not in flight. */
  predicate JobRests(db: Db, job: Option<nat>) {
    job.Some? && job.value < |db.jobs| ==> !InFlight(db.jobs[job.value])
  }

  /** A withdrawn enrolment's job is not in flight. */
  ghost predicate WithdrawnJobsRest(db: Db) {
    forall i :: 0 <= i < |db.enrolments| && Withdrawn(db.enrolments[i]) ==> JobRests(db, db.enrolments[i].job)
  }

  ghost predicate Inv(db: Db) { JobsDiffer(db) && LiveIsNewest(db.enrolments) && WithdrawnJobsRest(db) }

  // ---- How one step may change a row -----------------------------------------------------------

  /** The moves of an enrolment's life. CANCELLED and COMPLETED are never left. */
  predicate MayBecome(from: Status, to: Status) {
    || from == to
    || (from == Pending && to != Pending)
    || (from == InProgress && to != Pending)
    || ((from == Failed || from == Expired) && to == Completed)
  }

  predicate Evolved(e: Enrolment, f: Enrolment) { f == e.(status := f.status) && MayBecome(e.status, f.status) }

  /** A finished job is never taken up again: a cancelled one cannot be completed, a completed one cannot be cancelled. */
  predicate JobEvolved(j: Job, k: Job) {
    k.deviceId == j.deviceId && (!InFlight(j) ==> k == j)
  }

  ghost predicate Evolves(before: Db, after: Db) {
    && |before.enrolments| <= |after.enrolments| && |before.jobs| <= |after.jobs|
    && (forall k :: 0 <= k < |before.jobs| ==> JobEvolved(before.jobs[k], after.jobs[k]))
    && (forall i :: 0 <= i < |before.enrolments| ==> Evolved(before.enrolments[i], after.enrolments[i]))
  }

  /** Retiring rows together with their jobs. */
  lemma RetireKeeps(db: Db, due: Enrolment -> bool, status: Status)
    requires Inv(db) && (status == Cancelled || status == Expired)
    requires forall e :: due(e) ==> Live(e)
    ensures Inv(RetireStep(db, due, status)) && Evolves(db, RetireStep(db, due, status))
    ensures |RetireStep(db, due, status).enrolments| == |db.enrolments| && |RetireStep(db, due, status).jobs| == |db.jobs|
  {
    JobsOfDue(db.enrolments, due);
    hide JobsOf;
    var after := RetireStep(db, due, status);
    assert forall i :: 0 <= i < |db.enrolments| ==>
             after.enrolments[i] == if due(db.enrolments[i]) then db.enrolments[i].(status := status) else db.enrolments[i];
    assert LiveIsNewest(after.enrolments);
  }

  /** Rows that change alone: only live rows, or a withdrawn row that is completed. */
  lemma MarkKeeps(db: Db, which: Enrolment -> bool, status: Status)
    requires Inv(db) && (status == InProgress || status == Failed || status == Completed)
    requires forall e :: which(e) ==> MayBecome(e.status, status) && (status == InProgress ==> Live(e))
    ensures Inv(MarkStep(db, which, status)) && Evolves(db, MarkStep(db, which, status))
  {
    var after := MarkStep(db, which, status);
    assert forall i :: 0 <= i < |db.enrolments| ==>
             after.enrolments[i] == if which(db.enrolments[i]) then db.enrolments[i].(status := status) else db.enrolments[i];
    assert LiveIsNewest(after.enrolments);
  }

  lemma OpenKeeps(db: Db, person: Person, deviceId: int, window: int)
    requires Inv(db) && !HasLive(db.enrolments, person)
    ensures Inv(Opened(db, person, deviceId, window)) && Evolves(db, Opened(db, person, deviceId, window))
  {
    var after := Opened(db, person, deviceId, window);
    assert forall i :: 0 <= i < |db.enrolments| ==> after.enrolments[i] == db.enrolments[i];
    assert forall k :: 0 <= k < |db.jobs| ==> after.jobs[k] == db.jobs[k];
  }

  lemma RequestKeeps(db: Db, person: Person)
    requires Inv(db)
    ensures Inv(RequestStep(db, person).0) && Evolves(db, RequestStep(db, person).0)
  {
    EvolvesSelf(db);
    if person in db.people {
      SupersedeKeeps(db, person);
      var before := SupersedeStep(db, person);
      hide SupersedeStep;
      var after := RequestStep(db, person).0;
      assert forall i :: 0 <= i < |before.enrolments| ==> after.enrolments[i] == before.enrolments[i];
      EvolvesOn(db, before, after);
    }
  }

  lemma AckKeeps(db: Db, deviceId: int, job: nat, ack: Ack)
    requires Inv(db)
    ensures Inv(AckStep(db, deviceId, job, ack)) && Evolves(db, AckStep(db, deviceId, job, ack))
  {
  }

  lemma SupersedeKeeps(db: Db, person: Person)
    requires Inv(db)
    ensures var after := SupersedeStep(db, person);
            Inv(after) && Evolves(db, after) && !HasLive(after.enrolments, person) && |after.enrolments| == |db.enrolments|
  {
    RetireKeeps(db, OfPerson(person), Cancelled);
  }

  lemma EvolvesOn(a: Db, b: Db, c: Db)
    requires Evolves(a, b) && Evolves(b, c)
    ensures Evolves(a, c)
  {
    forall i | 0 <= i < |a.enrolments| ensures Evolved(a.enrolments[i], c.enrolments[i]) {
      assert Evolved(a.enrolments[i], b.enrolments[i]) && Evolved(b.enrolments[i], c.enrolments[i]);
    }
    forall k | 0 <= k < |a.jobs| ensures JobEvolved(a.jobs[k], c.jobs[k]) {
      assert JobEvolved(a.jobs[k], b.jobs[k]) && JobEvolved(b.jobs[k], c.jobs[k]);
    }
  }

  lemma StartKeeps(db: Db, person: Person, deviceId: int, seconds: int, reach: Option<set<int>>)
    requires Inv(db)
    ensures var after := StartStep(db, person, deviceId, seconds, reach).0; Inv(after) && Evolves(db, after)
  {
    hide SupersedeStep;
    hide ExpireStep;
    hide Opened;
    hide Inv;
    hide Evolves;
    hide HasLive;
    hide LiveOutside;
    var due := BeforeStart(db, reach);
    if reach.Some? {
      ExpireKeeps(db);
    } else {
      EvolvesSelf(db);
    }
    if StartStep(db, person, deviceId, seconds, reach).1 == None {
      SupersedeKeeps(due, person);
      OpenKeeps(SupersedeStep(due, person), person, deviceId, Window(seconds));
      EvolvesOn(db, due, SupersedeStep(due, person));
      EvolvesOn(db, SupersedeStep(due, person), Opened(SupersedeStep(due, person), person, deviceId, Window(seconds)));
    }
  }

  lemma EvolvesSelf(db: Db)
    ensures Evolves(db, db)
  {
  }

  lemma ExpireKeeps(db: Db)
    requires Inv(db)
    ensures Inv(ExpireStep(db)) && Evolves(db, ExpireStep(db))
  {
    RetireKeeps(db, DueAt(db.now), Expired);
  }

  lemma StepKeeps(db: Db, s: Step)
    requires Inv(db)
    ensures Inv(Next(db, s)) && Evolves(db, Next(db, s))
  {
    hide StartStep;
    hide RetireStep;
    hide MarkStep;
    hide AckStep;
    hide RequestStep;
    match s
    case Start(person, deviceId, seconds, reach) => StartKeeps(db, person, deviceId, seconds, reach);
    case Cancel(person) => SupersedeKeeps(db, person); EvolvesSelf(db);
    case Expire => ExpireKeeps(db);
    case Deliver(deviceId, job) => MarkKeeps(db, DeliveredBy(deviceId, job), InProgress);
    case Fail(deviceId, job) => MarkKeeps(db, FailedBy(deviceId, job), Failed);
    case Complete(person, deviceId) => MarkKeeps(db, CompletedBy(deviceId, person), Completed);
    case Report(person, reporter) => MarkKeeps(db, ReportedBy(reporter, person), Completed); EvolvesSelf(db);
    case RequestByKey(person) => RequestKeeps(db, person);
    case Acknowledge(deviceId, job, ack) => AckKeeps(db, deviceId, job, ack);
    case Tick(_) =>
    case Install(_, _) =>
    case Know(_) =>
  }

  lemma {:induction false} RunKeeps(db: Db, steps: seq<Step>)
    requires Inv(db)
    ensures Inv(Run(db, steps)) && Evolves(db, Run(db, steps))
    decreases |steps|
  {
    if steps == [] {
      EvolvesSelf(db);
    } else {
      StepKeeps(db, steps[0]);
      RunKeeps(Next(db, steps[0]), steps[1..]);
      EvolvesOn(db, Next(db, steps[0]), Run(db, steps));
    }
  }

  // ---- The theorems -------------------------------------------------------------------------------

  /** In every run a person has at most one live enrolment. */
  lemma OneLivePerPerson(now: int, steps: seq<Step>, i: nat, j: nat)
    requires var es := Run(Empty(now), steps).enrolments;
             i < |es| && j < |es| && es[i].person == es[j].person && Live(es[i]) && Live(es[j])
    ensures i == j
  {
    RunKeeps(Empty(now), steps);
  }

  /** In every run the job of a cancelled or expired enrolment is neither PENDING nor FAILED. */
  lemma WithdrawnJobIsNotInFlight(now: int, steps: seq<Step>, i: nat)
    requires var db := Run(Empty(now), steps); i < |db.enrolments| && Withdrawn(db.enrolments[i])
    ensures var db := Run(Empty(now), steps);
            db.enrolments[i].job.Some? ==>
              db.enrolments[i].job.value < |db.jobs| && !InFlight(db.jobs[db.enrolments[i].job.value])
  {
    RunKeeps(Empty(now), steps);
  }

  /** CANCELLED is never left. */
  lemma CancelledIsFinal(db: Db, steps: seq<Step>, i: nat)
    requires Inv(db) && i < |db.enrolments| && db.enrolments[i].status == Cancelled
    ensures i < |Run(db, steps).enrolments| && Run(db, steps).enrolments[i] == db.enrolments[i]
  {
    RunKeeps(db, steps);
    assert Evolved(db.enrolments[i], Run(db, steps).enrolments[i]);
  }

  /**
   * Once an enrolment is cancelled while its terminal holds the job, no acknowledgement the
   * terminal sends later completes, fails or re-opens that job.
   */
  lemma CancelledJobStaysCancelled(db: Db, steps: seq<Step>, person: Person, i: nat)
    requires Inv(db) && person in db.people && i < |db.enrolments|
    requires db.enrolments[i].person == person && Live(db.enrolments[i])
    requires db.enrolments[i].job.Some? && db.enrolments[i].job.value < |db.jobs|
    requires InFlight(db.jobs[db.enrolments[i].job.value])
    ensures var after := Run(Next(db, Cancel(person)), steps);
            var job := db.enrolments[i].job.value;
            job < |after.jobs| && after.jobs[job] == Job(db.jobs[job].deviceId, JobCancelled)
  {
    var cancelled := Next(db, Cancel(person));
    var job := db.enrolments[i].job.value;
    assert HasLive(db.enrolments, person);
    JobsOfDue(db.enrolments, OfPerson(person));
    StepKeeps(db, Cancel(person));
    assert cancelled.jobs[job] == Job(db.jobs[job].deviceId, JobCancelled);
    RunKeeps(cancelled, steps);
    assert JobEvolved(cancelled.jobs[job], Run(cancelled, steps).jobs[job]);
  }

  /** No step of a run opens an enrolment of the person at the terminal. */
  ghost predicate NoneOpenedAt(db: Db, steps: seq<Step>, person: Person, deviceId: int)
    decreases |steps|
  {
    steps == []
    || (!(steps[0].Start? && steps[0].person == person && steps[0].deviceId == deviceId
          && StartStep(db, person, deviceId, steps[0].seconds, steps[0].reach).1 == None)
        && NoneOpenedAt(Next(db, steps[0]), steps[1..], person, deviceId))
  }

  ghost predicate RefusedAt(es: seq<Enrolment>, person: Person, deviceId: int, i: nat) {
    && i < |es| && es[i].person == person && es[i].deviceId == Some(deviceId) && es[i].status == Cancelled
    && forall k :: i < k < |es| ==> es[k].person != person || es[k].deviceId != Some(deviceId)
  }

  lemma RefusedDoesNotBind(es: seq<Enrolment>, person: Person, deviceId: int, i: nat)
    requires RefusedAt(es, person, deviceId, i)
    ensures !Binds(es, person, deviceId)
  {
    LatestAtInRange(es, person, deviceId);
  }

  lemma StepStaysRefused(db: Db, s: Step, person: Person, deviceId: int, i: nat)
    requires Inv(db) && RefusedAt(db.enrolments, person, deviceId, i)
    requires !(s.Start? && s.person == person && s.deviceId == deviceId
               && StartStep(db, person, deviceId, s.seconds, s.reach).1 == None)
    ensures RefusedAt(Next(db, s).enrolments, person, deviceId, i)
  {
    StepKeeps(db, s);
    var after := Next(db, s);
    assert forall k :: 0 <= k < |db.enrolments| ==> Evolved(db.enrolments[k], after.enrolments[k]);
    if s.Start? {
      OnlyStartOpens(db, s.person, s.deviceId, s.seconds, s.reach);
    } else {
      OthersOpenNothing(db, s);
    }
  }

  lemma OnlyStartOpens(db: Db, person: Person, deviceId: int, seconds: int, reach: Option<set<int>>)
    ensures var (after, error) := StartStep(db, person, deviceId, seconds, reach);
            && (error.Some? ==> |after.enrolments| == |db.enrolments|)
            && (error == None ==> |after.enrolments| == |db.enrolments| + 1
                                  && after.enrolments[|db.enrolments|].person == person
                                  && after.enrolments[|db.enrolments|].deviceId == Some(deviceId))
  {
    hide JobsOf;
    hide LiveOutside;
  }

  lemma OthersOpenNothing(db: Db, s: Step)
    requires !s.Start?
    ensures var n := |db.enrolments|;
            var after := Next(db, s).enrolments;
            |after| == n || (|after| == n + 1 && after[n].deviceId == None)
  {
    hide JobsOf;
    hide HasLive;
  }

  /** Once the latest enrolment at a terminal is cancelled, no report from it binds until one is opened there. */
  lemma {:induction false} RefusedUntilReopened(db: Db, steps: seq<Step>, person: Person, deviceId: int, i: nat)
    requires Inv(db) && RefusedAt(db.enrolments, person, deviceId, i) && NoneOpenedAt(db, steps, person, deviceId)
    ensures !Binds(Run(db, steps).enrolments, person, deviceId)
    decreases |steps|
  {
    hide Next;
    if steps == [] {
      RefusedDoesNotBind(db.enrolments, person, deviceId, i);
    } else {
      StepStaysRefused(db, steps[0], person, deviceId, i);
      StepKeeps(db, steps[0]);
      RefusedUntilReopened(Next(db, steps[0]), steps[1..], person, deviceId, i);
    }
  }

  /**
   * Cancelling a live enrolment: from then on no report from its terminal binds, whatever the
   * terminal, the sync engine and the clock do, until an enrolment is opened at that terminal.
   */
  lemma CancelStopsTheTerminal(db: Db, steps: seq<Step>, person: Person, i: nat)
    requires Inv(db) && person in db.people
    requires i < |db.enrolments| && db.enrolments[i].person == person && Live(db.enrolments[i]) && db.enrolments[i].deviceId.Some?
    requires NoneOpenedAt(Next(db, Cancel(person)), steps, person, db.enrolments[i].deviceId.value)
    ensures !Binds(Run(Next(db, Cancel(person)), steps).enrolments, person, db.enrolments[i].deviceId.value)
  {
    StepKeeps(db, Cancel(person));
    var after := Next(db, Cancel(person));
    assert HasLive(db.enrolments, person);
    assert after.enrolments[i] == db.enrolments[i].(status := Cancelled);
    RefusedUntilReopened(after, steps, person, db.enrolments[i].deviceId.value, i);
  }

  // ---- Terminals nobody cancelled ------------------------------------------------------------------

  /**
   * Superseding counts as cancelling at the terminal left behind. After a start, a report of
   * the person from any other terminal is refused exactly when the latest row there was
   * CANCELLED or live when the start looked; the terminal of the start binds, and nobody
   * else's reports are decided differently.
   */
  lemma StartRefusesElsewhereExactlyWhen(db: Db, person: Person, deviceId: int, seconds: int, reach: Option<set<int>>,
                                         other: Person, at: int)
    requires StartStep(db, person, deviceId, seconds, reach).1 == None
    ensures var es := BeforeStart(db, reach).enrolments;
            var fs := StartStep(db, person, deviceId, seconds, reach).0.enrolments;
            && (other == person && at != deviceId ==> (!Binds(fs, person, at) <==> !Binds(es, person, at) || LiveAt(es, person, at)))
            && (other == person && at == deviceId ==> Binds(fs, person, at))
            && (other != person ==> (Binds(fs, other, at) <==> Binds(db.enrolments, other, at)))
  {
    var es := BeforeStart(db, reach).enrolments;
    var fs := Retired(es, OfPerson(person), Cancelled);
    var added := Enrolment(person, Some(deviceId), Some(|BeforeStart(db, reach).jobs|), Pending,
                            Some(db.now + Window(seconds)));
    StartAppends(db, person, deviceId, seconds, reach);
    CancellingBinds(es, person);
    MarkingBindsAlike(db.enrolments, DueAt(db.now), Expired);
    if other == person && at == deviceId {
      assert (fs + [added])[..|fs|] == fs;
      assert LatestAt(fs + [added], person, at) == Some(|fs|);
    } else {
      AddedElsewhere(fs, added, other, at);
    }
    hide Binds;
    hide LiveAt;
    hide LatestAt;
    hide StartStep;
    hide Retired;
  }

  lemma StartAppends(db: Db, person: Person, deviceId: int, seconds: int, reach: Option<set<int>>)
    requires StartStep(db, person, deviceId, seconds, reach).1 == None
    ensures var due := BeforeStart(db, reach);
            StartStep(db, person, deviceId, seconds, reach).0.enrolments
            == Retired(due.enrolments, OfPerson(person), Cancelled)
               + [Enrolment(person, Some(deviceId), Some(|due.jobs|), Pending, Some(db.now + Window(seconds)))]
  {
    hide JobsOf;
    hide LiveOutside;
  }

  lemma UnboundIsRefused(es: seq<Enrolment>, person: Person, deviceId: int) returns (i: nat)
    requires !Binds(es, person, deviceId)
    ensures RefusedAt(es, person, deviceId, i)
  {
    LatestAtInRange(es, person, deviceId);
    i := LatestAt(es, person, deviceId).value;
  }

  /** The terminal left behind is refused until an enrolment is opened there, whatever happens in between. */
  lemma SupersededStopsTheTerminal(db: Db, steps: seq<Step>, person: Person, deviceId: int, seconds: int,
                                   reach: Option<set<int>>, at: int)
    requires Inv(db) && StartStep(db, person, deviceId, seconds, reach).1 == None
    requires at != deviceId && LiveAt(BeforeStart(db, reach).enrolments, person, at)
    requires NoneOpenedAt(Next(db, Start(person, deviceId, seconds, reach)), steps, person, at)
    ensures !Binds(Run(Next(db, Start(person, deviceId, seconds, reach)), steps).enrolments, person, at)
  {
    hide StartStep;
    hide BeforeStart;
    hide Binds;
    hide LiveAt;
    hide Inv;
    var after := Next(db, Start(person, deviceId, seconds, reach));
    StepKeeps(db, Start(person, deviceId, seconds, reach));
    StartRefusesElsewhereExactlyWhen(db, person, deviceId, seconds, reach, person, at);
    var i := UnboundIsRefused(after.enrolments, person, at);
    RefusedUntilReopened(after, steps, person, at, i);
  }

  const ANN := Person(1, "ann")
  const DOOR := Terminal(10, 1, true, false, true, false)

  /** One person, two terminals, and a start at each. */
  const TWO_STARTS := [Know(ANN), Install(7, DOOR), Install(8, DOOR), Start(ANN, 7, 60, None), Start(ANN, 8, 60, None)]

  /** Nobody cancelled anything in this run, and the first terminal's report is refused. */
  lemma SupersededTerminalIsRefused(now: int)
    ensures forall k | 0 <= k < |TWO_STARTS| :: !TWO_STARTS[k].Cancel?
    ensures var es := Run(Empty(now), TWO_STARTS).enrolments;
            !Binds(es, ANN, 7) && Binds(es, ANN, 8) && |es| == 2
  {
    var ready := Db(now, {ANN}, map[7 := DOOR, 8 := DOOR], [], []);
    FiveSteps(Empty(now), TWO_STARTS[0], TWO_STARTS[1], TWO_STARTS[2], TWO_STARTS[3], TWO_STARTS[4]);
    assert Next(Next(Next(Empty(now), TWO_STARTS[0]), TWO_STARTS[1]), TWO_STARTS[2]) == ready;
    FirstStart(ready);
    var first := Next(ready, TWO_STARTS[3]);
    hide Next;
    SecondStart(first);
  }

  lemma FirstStart(db: Db)
    requires db.people == {ANN} && db.terminals == map[7 := DOOR, 8 := DOOR] && db.enrolments == [] && db.jobs == []
    ensures var first := Next(db, TWO_STARTS[3]);
            && first.people == db.people && first.terminals == db.terminals
            && |first.enrolments| == 1 && first.enrolments[0].person == ANN && first.enrolments[0].deviceId == Some(7)
            && Live(first.enrolments[0])
  {
  }

  lemma SecondStart(db: Db)
    requires db.people == {ANN} && db.terminals == map[7 := DOOR, 8 := DOOR]
    requires |db.enrolments| == 1 && db.enrolments[0].person == ANN && db.enrolments[0].deviceId == Some(7) && Live(db.enrolments[0])
    ensures var es := Next(db, TWO_STARTS[4]).enrolments;
            !Binds(es, ANN, 7) && Binds(es, ANN, 8) && |es| == 2
  {
    hide Binds;
    assert LatestAt(db.enrolments, ANN, 7) == Some(0);
    assert LiveAt(db.enrolments, ANN, 7);
    hide LiveAt;
    assert StartStep(db, ANN, 8, 60, None).1 == None by { hide SupersedeStep; }
    StartRefusesElsewhereExactlyWhen(db, ANN, 8, 60, None, ANN, 7);
    StartRefusesElsewhereExactlyWhen(db, ANN, 8, 60, None, ANN, 8);
    StartAppends(db, ANN, 8, 60, None);
    assert BeforeStart(db, None) == db;
    assert Next(db, TWO_STARTS[4]) == StartStep(db, ANN, 8, 60, None).0;
  }

  lemma FiveSteps(db: Db, a: Step, b: Step, c: Step, d: Step, e: Step)
    ensures Run(db, [a, b, c, d, e]) == Next(Next(Next(Next(Next(db, a), b), c), d), e)
  {
    hide Next;
    assert [a, b, c, d, e][1..] == [b, c, d, e] && [b, c, d, e][1..] == [c, d, e];
    assert [c, d, e][1..] == [d, e] && [d, e][1..] == [e] && [e][1..] == [];
    assert Run(db, [a, b, c, d, e]) == Run(Next(db, a), [b, c, d, e]);
    assert Run(Next(db, a), [b, c, d, e]) == Run(Next(Next(db, a), b), [c, d, e]);
    assert Run(Next(Next(db, a), b), [c, d, e]) == Run(Next(Next(Next(db, a), b), c), [d, e]);
    var third := Next(Next(Next(db, a), b), c);
    assert Run(third, [d, e]) == Run(Next(third, d), [e]);
    assert Run(Next(third, d), [e]) == Run(Next(Next(third, d), e), []);
  }

  predicate WindowsDue(db: Db) {
    exists i :: 0 <= i < |db.enrolments| && DueAt(db.now)(db.enrolments[i])
  }

  lemma {:induction false} NoneDueNoJobs(es: seq<Enrolment>, due: Enrolment -> bool)
    requires forall i :: 0 <= i < |es| ==> !due(es[i])
    ensures JobsOf(es, due) == []
  {
    if es != [] {
      NoneDueNoJobs(es[..|es| - 1], due);
    }
  }

  /** Closing the windows that have run out changes something exactly when there is one. */
  lemma ExpiryChangesExactlyWhenDue(db: Db)
    ensures ExpireStep(db) == db <==> !WindowsDue(db)
  {
    if WindowsDue(db) {
      var i :| 0 <= i < |db.enrolments| && DueAt(db.now)(db.enrolments[i]);
      assert ExpireStep(db).enrolments[i].status == Expired && Live(db.enrolments[i]);
    } else {
      NoneDueNoJobs(db.enrolments, DueAt(db.now));
      assert ExpireStep(db).enrolments == db.enrolments && ExpireStep(db).jobs == db.jobs;
    }
  }

  /**
   * A refused start has changed nothing exactly when it named no sites or no live enrolment,
   * of anybody, had run out of time; otherwise it has expired those that had, and only those.
   */
  lemma RefusedStartChangesNothingExactlyWhen(db: Db, person: Person, deviceId: int, seconds: int, reach: Option<set<int>>)
    requires StartStep(db, person, deviceId, seconds, reach).1.Some?
    ensures StartStep(db, person, deviceId, seconds, reach).0 == db <==> reach == None || !WindowsDue(db)
    ensures reach.Some? ==> StartStep(db, person, deviceId, seconds, reach).0 == ExpireStep(db)
  {
    hide ExpireStep;
    hide SupersedeStep;
    hide LiveOutside;
    hide WindowsDue;
    ExpiryChangesExactlyWhenDue(db);
  }

  /** One person's start is refused as out of reach, and another person's row has turned EXPIRED. */
  lemma OutOfReachHasExpired()
    ensures var ann, bob := Person(1, "ann"), Person(1, "bob");
            var door := Terminal(10, 1, true, false, true, false);
            var row := Enrolment(ann, Some(7), Some(0), Pending, Some(200));
            var due := Enrolment(bob, Some(7), Some(1), Pending, Some(90));
            var db := Db(100, {ann, bob}, map[7 := door], [row, due], [Job(7, JobPending), Job(7, JobPending)]);
            var (after, error) := StartStep(db, ann, 7, 60, Some({}));
            Inv(db) && error == Some(OutOfReach) && after != db
            && after.enrolments == [row, due.(status := Expired)]
            && after.jobs == [Job(7, JobPending), Job(7, JobCancelled)]
  {
    var ann, bob := Person(1, "ann"), Person(1, "bob");
    assert "ann"[0] != "bob"[0];
    var door := Terminal(10, 1, true, false, true, false);
    var row := Enrolment(ann, Some(7), Some(0), Pending, Some(200));
    var due := Enrolment(bob, Some(7), Some(1), Pending, Some(90));
    var es := [row, due];
    var db := Db(100, {ann, bob}, map[7 := door], es, [Job(7, JobPending), Job(7, JobPending)]);
    assert es[..1] == [row] && [row][..0] == [];
    assert JobsOf([row], DueAt(100)) == [];
    assert JobsOf(es, DueAt(100)) == [1];
    var after := ExpireStep(db);
    assert after.enrolments == [row, due.(status := Expired)];
    assert after.jobs == [Job(7, JobPending), Job(7, JobCancelled)];
    assert LiveElsewhere(after.enrolments[0], db.terminals, ann, {});
    assert LiveOutside(after, ann, {});
  }

  /** A start that succeeds leaves the person exactly one live enrolment: the new one, with a clamped window. */
  lemma StartOpensTheOnlyLiveOne(db: Db, person: Person, deviceId: int, seconds: int, reach: Option<set<int>>)
    requires Inv(db) && StartStep(db, person, deviceId, seconds, reach).1 == None
    ensures var after := StartStep(db, person, deviceId, seconds, reach).0;
            var n := |db.enrolments|;
            && |after.enrolments| == n + 1
            && (forall k :: 0 <= k <= n && after.enrolments[k].person == person ==> (Live(after.enrolments[k]) <==> k == n))
            && after.enrolments[n].deviceId == Some(deviceId) && after.enrolments[n].job == Some(|db.jobs|)
            && |after.jobs| == |db.jobs| + 1 && after.jobs[|db.jobs|] == Job(deviceId, JobPending)
            && MIN_WINDOW <= after.enrolments[n].expiresAt.value - db.now <= MAX_WINDOW
            && forall k :: 0 <= k < n && db.enrolments[k].person == person && Live(db.enrolments[k]) ==>
                 Withdrawn(after.enrolments[k]) && JobRests(after, after.enrolments[k].job)
  {
    hide JobsOf;
    hide LiveOutside;
    StartKeeps(db, person, deviceId, seconds, reach);
    var after := StartStep(db, person, deviceId, seconds, reach).0;
    assert after.enrolments[|db.enrolments|].person == person && Live(after.enrolments[|db.enrolments|]);
  }
}
