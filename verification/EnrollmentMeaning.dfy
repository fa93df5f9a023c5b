/**
 * What starting, stopping and delivering an enrolment do, spelled out row by row against the
 * tables alone.
 */
module EnrollmentMeaning {
  import opened Options
  import opened Enrollment

  /** Still open: waiting for its terminal, or taken by it. */
  predicate Waits(e: Enrolment) { e.status in {Pending, InProgress} }

  predicate RunOut(e: Enrolment, now: int) { Waits(e) && e.expiresAt.Some? && e.expiresAt.value <= now }

  /** A job its terminal may still run. */
  predicate MayRun(j: Job) { j.status in {JobPending, JobFailed} }

  /** Only a job that some changed row carried is cancelled, and only if it could still run. */
  ghost predicate JobsStop(db: Db, after: Db)
    requires |db.enrolments| <= |after.enrolments| && |db.jobs| <= |after.jobs|
  {
    forall k | 0 <= k < |db.jobs| ::
      after.jobs[k] == if MayRun(db.jobs[k]) && Changed(db, after, k) then db.jobs[k].(status := JobCancelled) else db.jobs[k]
  }

  ghost predicate Changed(db: Db, after: Db, k: nat)
    requires |db.enrolments| <= |after.enrolments|
  {
    exists i | 0 <= i < |db.enrolments| :: after.enrolments[i] != db.enrolments[i] && db.enrolments[i].job == Some(k)
  }

  // ---- Starting ------------------------------------------------------------------------

  predicate Found(db: Db, person: Person, deviceId: int) {
    deviceId in db.terminals && db.terminals[deviceId].companyId == person.companyId && !db.terminals[deviceId].deleted
  }

  predicate CanCapture(db: Db, person: Person, deviceId: int) {
    Found(db, person, deviceId) && db.terminals[deviceId].active && !db.terminals[deviceId].disabled && db.terminals[deviceId].hasKey
  }

  /** An open row of the person that has not run out, at no terminal the caller can reach. */
  ghost predicate WaitsBeyond(db: Db, person: Person, sites: set<int>, i: nat) {
    && i < |db.enrolments| && db.enrolments[i].person == person && Waits(db.enrolments[i]) && !RunOut(db.enrolments[i], db.now)
    && var at := db.enrolments[i].deviceId;
       at.None? || at.value !in db.terminals || db.terminals[at.value].siteId !in sites
  }

  /** How long the terminal waits: five minutes unless said, at least half a minute and at most an hour. */
  function Seconds(requested: int): int {
    if requested <= 0 then 300 else if requested < 30 then 30 else if requested > 3600 then 3600 else requested
  }

  /** What a start makes of a row: run-out rows expire for a caller with bounds, and the person's own give way. */
  function RowAfter(e: Enrolment, now: int, person: Person, bounded: bool, started: bool): Enrolment {
    if bounded && RunOut(e, now) then e.(status := Expired)
    else if started && e.person == person && Waits(e) then e.(status := Cancelled)
    else e
  }

  /** Starting, in full: the terminal first, then the person, then what the caller cannot reach. */
  lemma StartInFull(db: Db, person: Person, deviceId: int, seconds: int, reach: Option<set<int>>)
    ensures var (after, error) := StartStep(db, person, deviceId, seconds, reach);
            var (n, m) := (|db.enrolments|, |db.jobs|);
            && (error == Some(DeviceNotFound) <==> !Found(db, person, deviceId))
            && (error == Some(NotEnrollable) <==> Found(db, person, deviceId) && !CanCapture(db, person, deviceId))
            && (error == Some(PersonNotFound) <==> CanCapture(db, person, deviceId) && person !in db.people)
            && (error == Some(OutOfReach) <==> CanCapture(db, person, deviceId) && person in db.people
                                               && reach.Some? && exists i :: WaitsBeyond(db, person, reach.value, i))
            && after == db.(enrolments := after.enrolments, jobs := after.jobs)
            && |after.enrolments| == n + (if error == None then 1 else 0) && |after.jobs| == m + (if error == None then 1 else 0)
            && (forall i | 0 <= i < n :: after.enrolments[i] == RowAfter(db.enrolments[i], db.now, person, reach.Some?, error == None))
            && JobsStop(db, after)
            && (error == None ==>
                  after.enrolments[n] == Enrolment(person, Some(deviceId), Some(m), Pending, Some(db.now + Seconds(seconds)))
                  && after.jobs[m] == Job(deviceId, JobPending))
  {
    var due := BeforeStart(db, reach);
    DueFollows(db, reach);
    StartRefusals(db, person, deviceId, seconds, reach);
    hide StartStep;
    hide BeforeStart;
    hide Found;
    hide CanCapture;
    hide WaitsBeyond;
    hide JobsStop;
    OpenedRows(db, due, person, deviceId, seconds, reach.Some?);
    hide Opened;
    hide SupersedeStep;
  }

  lemma StartRefusals(db: Db, person: Person, deviceId: int, seconds: int, reach: Option<set<int>>)
    ensures var (after, error) := StartStep(db, person, deviceId, seconds, reach);
            var due := BeforeStart(db, reach);
            && (error == Some(DeviceNotFound) <==> !Found(db, person, deviceId))
            && (error == Some(NotEnrollable) <==> Found(db, person, deviceId) && !CanCapture(db, person, deviceId))
            && (error == Some(PersonNotFound) <==> CanCapture(db, person, deviceId) && person !in db.people)
            && (error == Some(OutOfReach) <==> CanCapture(db, person, deviceId) && person in db.people
                                               && reach.Some? && exists i :: WaitsBeyond(db, person, reach.value, i))
            && after == if error == None then Opened(SupersedeStep(due, person), person, deviceId, Seconds(seconds)) else due
  {
    var due := BeforeStart(db, reach);
    DueFollows(db, reach);
    if reach.Some? { BeyondAfterExpiry(db, person, reach); }
    hide BeforeStart;
    hide LiveOutside;
    hide WaitsBeyond;
    hide SupersedeStep;
    hide Opened;
    hide JobsStop;
  }

  /** What an accepted start leaves, from rows of which those that had run out are closed already. */
  lemma OpenedRows(db: Db, due: Db, person: Person, deviceId: int, seconds: int, bounded: bool)
    requires due == db.(enrolments := due.enrolments, jobs := due.jobs)
    requires |due.enrolments| == |db.enrolments| && |due.jobs| == |db.jobs| && JobsStop(db, due)
    requires forall i | 0 <= i < |db.enrolments| :: due.enrolments[i] == RowAfter(db.enrolments[i], db.now, person, bounded, false)
    ensures var after := Opened(SupersedeStep(due, person), person, deviceId, Seconds(seconds));
            var (n, m) := (|db.enrolments|, |db.jobs|);
            && after == db.(enrolments := after.enrolments, jobs := after.jobs) && |after.enrolments| == n + 1 && |after.jobs| == m + 1
            && (forall i | 0 <= i < n :: after.enrolments[i] == RowAfter(db.enrolments[i], db.now, person, bounded, true))
            && JobsStop(db, after)
            && after.enrolments[n] == Enrolment(person, Some(deviceId), Some(m), Pending, Some(db.now + Seconds(seconds)))
            && after.jobs[m] == Job(deviceId, JobPending)
  {
    SupersedeFollows(due, person);
    var closed := SupersedeStep(due, person);
    hide SupersedeStep;
    hide JobsStop;
    StopsTwice(db, due, closed, Opened(closed, person, deviceId, Seconds(seconds)));
  }

  /** A site-bounded start closes what has run out first. */
  lemma DueFollows(db: Db, reach: Option<set<int>>)
    ensures var due := BeforeStart(db, reach);
            && due == db.(enrolments := due.enrolments, jobs := due.jobs)
            && |due.enrolments| == |db.enrolments| && |due.jobs| == |db.jobs|
            && (forall i | 0 <= i < |db.enrolments| ::
                  due.enrolments[i] == if reach.Some? && RunOut(db.enrolments[i], db.now)
                                       then db.enrolments[i].(status := Expired) else db.enrolments[i])
            && JobsStop(db, due)
  {
    RetiredJobsFollow(db, DueAt(db.now), Expired);
    hide JobsOf;
    if reach.Some? { FollowIsStop(db, ExpireStep(db)); }
  }

  lemma SupersedeFollows(db: Db, person: Person)
    ensures var after := SupersedeStep(db, person);
            && after == db.(enrolments := after.enrolments, jobs := after.jobs)
            && |after.enrolments| == |db.enrolments| && |after.jobs| == |db.jobs|
            && (forall i | 0 <= i < |db.enrolments| ::
                  after.enrolments[i] == if db.enrolments[i].person == person && Waits(db.enrolments[i])
                                         then db.enrolments[i].(status := Cancelled) else db.enrolments[i])
            && JobsStop(db, after)
  {
    RetiredJobsFollow(db, OfPerson(person), Cancelled);
    hide JobsOf;
    FollowIsStop(db, SupersedeStep(db, person));
  }

  lemma FollowIsStop(db: Db, after: Db)
    requires |db.enrolments| <= |after.enrolments| && |db.jobs| == |after.jobs|
    requires JobsFollow(db.enrolments, after.enrolments, db.jobs, after.jobs)
    ensures JobsStop(db, after)
  {
    forall k: nat ensures Carried(db.enrolments, after.enrolments, k) <==> Changed(db, after, k) {}
    hide Changed;
    hide Carried;
  }

  /** Rows closed in either of two steps stay closed, so the jobs stop as if in one. */
  lemma StopsTwice(db: Db, due: Db, closed: Db, after: Db)
    requires |db.enrolments| == |due.enrolments| == |closed.enrolments| && |db.jobs| == |due.jobs| == |closed.jobs|
    requires |after.enrolments| == |db.enrolments| + 1 && |after.jobs| == |db.jobs| + 1
    requires after.enrolments[..|db.enrolments|] == closed.enrolments && after.jobs[..|db.jobs|] == closed.jobs
    requires JobsStop(db, due) && JobsStop(due, closed)
    requires forall i | 0 <= i < |db.enrolments| :: due.enrolments[i].job == db.enrolments[i].job
    requires forall i | 0 <= i < |db.enrolments| ::
               due.enrolments[i] != db.enrolments[i] ==> closed.enrolments[i] == due.enrolments[i]
    requires forall i | 0 <= i < |db.enrolments| ::
               due.enrolments[i] != closed.enrolments[i] ==> due.enrolments[i] == db.enrolments[i]
    ensures JobsStop(db, after)
  {
    forall i | 0 <= i < |db.enrolments| ensures after.enrolments[i] == closed.enrolments[i] {
      assert after.enrolments[..|db.enrolments|][i] == closed.enrolments[i];
    }
    forall k: nat ensures Changed(db, after, k) <==> Changed(db, due, k) || Changed(due, closed, k) {
      if i :| 0 <= i < |db.enrolments| && after.enrolments[i] != db.enrolments[i] && db.enrolments[i].job == Some(k) {
        assert due.enrolments[i] != db.enrolments[i] || closed.enrolments[i] != due.enrolments[i];
      }
      if i :| 0 <= i < |db.enrolments| && due.enrolments[i] != db.enrolments[i] && db.enrolments[i].job == Some(k) {
        assert after.enrolments[i] != db.enrolments[i];
      }
      if i :| 0 <= i < |db.enrolments| && closed.enrolments[i] != due.enrolments[i] && due.enrolments[i].job == Some(k) {
        assert after.enrolments[i] != db.enrolments[i];
      }
    }
    hide Changed;
    forall k | 0 <= k < |db.jobs|
      ensures after.jobs[k] == if MayRun(db.jobs[k]) && Changed(db, after, k) then db.jobs[k].(status := JobCancelled) else db.jobs[k]
    {
      assert after.jobs[..|db.jobs|][k] == closed.jobs[k];
    }
  }

  lemma BeyondAfterExpiry(db: Db, person: Person, reach: Option<set<int>>)
    requires reach.Some?
    ensures LiveOutside(BeforeStart(db, reach), person, reach.value) <==> exists i :: WaitsBeyond(db, person, reach.value, i)
  {
    var due := BeforeStart(db, reach);
    DueFollows(db, reach);
    hide BeforeStart;
    forall i: nat | i < |db.enrolments|
      ensures LiveElsewhere(due.enrolments[i], due.terminals, person, reach.value) <==> WaitsBeyond(db, person, reach.value, i)
    {
    }
    hide WaitsBeyond;
    if i :| WaitsBeyond(db, person, reach.value, i) { BeyondIsRow(db, person, reach.value, i); }
  }

  lemma BeyondIsRow(db: Db, person: Person, sites: set<int>, i: nat)
    requires WaitsBeyond(db, person, sites, i)
    ensures i < |db.enrolments|
  {
  }

  // ---- Stopping ------------------------------------------------------------------------

  /** Stopping, in full: every open row of the person is cancelled with its job, and there must be one. */
  lemma CancelInFull(db: Db, person: Person)
    ensures var (after, ok) := CancelStep(db, person);
            && (ok <==> person in db.people && exists i | 0 <= i < |db.enrolments| ::
                  db.enrolments[i].person == person && Waits(db.enrolments[i]))
            && after == db.(enrolments := after.enrolments, jobs := after.jobs)
            && |after.enrolments| == |db.enrolments| && |after.jobs| == |db.jobs|
            && (forall i | 0 <= i < |db.enrolments| ::
                  after.enrolments[i] == if ok && db.enrolments[i].person == person && Waits(db.enrolments[i])
                                         then db.enrolments[i].(status := Cancelled) else db.enrolments[i])
            && JobsStop(db, after)
  {
    SupersedeFollows(db, person);
    hide SupersedeStep;
  }

  // ---- Delivering -----------------------------------------------------------------------

  /** Delivering jobs to a terminal takes exactly its own pending rows that carry one of them. */
  lemma {:induction false} DeliveryInFull(db: Db, deviceId: int, ids: seq<nat>)
    ensures var after := Delivered(db, deviceId, ids);
            && after == db.(enrolments := after.enrolments) && |after.enrolments| == |db.enrolments|
            && forall i | 0 <= i < |db.enrolments| ::
                 var e := db.enrolments[i];
                 after.enrolments[i] == if e.status == Pending && e.deviceId == Some(deviceId) && e.job.Some? && e.job.value in ids
                                        then e.(status := InProgress) else e
  {
    if ids != [] {
      var n := |ids| - 1;
      DeliveryInFull(db, deviceId, ids[..n]);
      assert ids == ids[..n] + [ids[n]];
    }
  }

  // ---- Reports ---------------------------------------------------------------------------

  /** A report binds unless the person's last row at that terminal was cancelled. */
  lemma BindsExactlyUnlessCancelledLast(es: seq<Enrolment>, person: Person, deviceId: int)
    ensures Binds(es, person, deviceId) <==>
            forall i | 0 <= i < |es| && es[i].person == person && es[i].deviceId == Some(deviceId) && es[i].status == Cancelled ::
              exists j | i < j < |es| :: es[j].person == person && es[j].deviceId == Some(deviceId)
  {
    LatestAtInRange(es, person, deviceId);
    hide LatestAt;
  }

  // ---- Acknowledgements -------------------------------------------------------------------

  /**
   * An acknowledgement moves only the job it names, only for that job's own terminal, and only
   * while the job may still run: a job that was completed or cancelled stays so.
   */
  lemma AckInFull(db: Db, deviceId: int, job: nat, ack: Ack)
    ensures var after := AckStep(db, deviceId, job, ack);
            && after == db.(jobs := after.jobs) && |after.jobs| == |db.jobs|
            && forall k | 0 <= k < |db.jobs| ::
                 var j := db.jobs[k];
                 if k != job || j.deviceId != deviceId || !MayRun(j) then after.jobs[k] == j
                 else
                   && (ack == AckCompleted ==> after.jobs[k] == Job(deviceId, JobCompleted))
                   && (ack == AckFailed ==> after.jobs[k] == Job(deviceId, JobFailed))
                   && (ack == AckBusy ==> after.jobs[k] == Job(deviceId, JobPending))
                   && (ack == QueueCancelled ==> after.jobs[k] == Job(deviceId, JobCancelled))
  {
  }
}
