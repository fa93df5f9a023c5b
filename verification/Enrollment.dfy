/**
 * Fingerprint enrolment (database/enrollment.go): an enrolment row and the sync job that
 * carries it to one terminal, written together and retired together.
 *
 * Ids are positions: both tables only grow, and "the most recent enrolment" is the last row
 * that matches. A person is known by company and external id.
 */
module Enrollment {
  import opened Options

  const DEFAULT_WINDOW := 300
  const MIN_WINDOW := 30
  const MAX_WINDOW := 3600

  datatype Person = Person(companyId: int, externalId: string)

  datatype Status = Pending | InProgress | Completed | Failed | Expired | Cancelled

  datatype JobStatus = JobPending | JobCompleted | JobFailed | JobCancelled

  /** A request made with a site key names no terminal, carries no job and has no window. */
  datatype Enrolment = Enrolment(person: Person, deviceId: Option<int>, job: Option<nat>, status: Status, expiresAt: Option<int>)

  datatype Job = Job(deviceId: int, status: JobStatus)

  datatype Terminal = Terminal(siteId: int, companyId: int, active: bool, disabled: bool, hasKey: bool, deleted: bool)

  datatype Db = Db(now: int, people: set<Person>, terminals: map<int, Terminal>, enrolments: seq<Enrolment>, jobs: seq<Job>)

  predicate Live(e: Enrolment) { e.status == Pending || e.status == InProgress }

  predicate InFlight(j: Job) { j.status == JobPending || j.status == JobFailed }

  // ---- Retiring rows and their jobs together ---------------------------------------------------

  /** The rows after an UPDATE that sets a status where a test holds. */
  function Retired(es: seq<Enrolment>, due: Enrolment -> bool, status: Status): seq<Enrolment> {
    seq(|es|, i requires 0 <= i < |es| => if due(es[i]) then es[i].(status := status) else es[i])
  }

  /** RETURNING sync_job_id. */
  function JobsOf(es: seq<Enrolment>, due: Enrolment -> bool): seq<nat> {
    if es == [] then []
    else
      var before, last := JobsOf(es[..|es| - 1], due), es[|es| - 1];
      if due(last) && last.job.Some? then before + [last.job.value] else before
  }

  /** Cancel the jobs of a list that are still in flight. */
  function CancelJobs(jobs: seq<Job>, ids: seq<nat>): seq<Job> {
    seq(|jobs|, k requires 0 <= k < |jobs| => if k in ids && InFlight(jobs[k]) then jobs[k].(status := JobCancelled) else jobs[k])
  }

  function OfPerson(person: Person): Enrolment -> bool {
    (e: Enrolment) => e.person == person && Live(e)
  }

  function DueAt(now: int): Enrolment -> bool {
    (e: Enrolment) => Live(e) && e.expiresAt.Some? && e.expiresAt.value <= now
  }

  function RetireStep(db: Db, due: Enrolment -> bool, status: Status): Db {
    db.(enrolments := Retired(db.enrolments, due, status), jobs := CancelJobs(db.jobs, JobsOf(db.enrolments, due)))
  }

  function ExpireStep(db: Db): Db { RetireStep(db, DueAt(db.now), Expired) }

  function SupersedeStep(db: Db, person: Person): Db { RetireStep(db, OfPerson(person), Cancelled) }

  // ---- Starting ------------------------------------------------------------------------------------

  datatype StartError = DeviceNotFound | NotEnrollable | PersonNotFound | OutOfReach

  function Window(requested: int): int {
    var window := if requested <= 0 then DEFAULT_WINDOW else requested;
    if window < MIN_WINDOW then MIN_WINDOW else if window > MAX_WINDOW then MAX_WINDOW else window
  }

  /** enrollmentTargetTx. */
  function TargetError(db: Db, companyId: int, deviceId: int): Option<StartError> {
    if deviceId !in db.terminals || db.terminals[deviceId].companyId != companyId || db.terminals[deviceId].deleted
    then Some(DeviceNotFound)
    else if !db.terminals[deviceId].active || db.terminals[deviceId].disabled || !db.terminals[deviceId].hasKey
    then Some(NotEnrollable)
    else None
  }

  /** A live enrolment of the person sits at a terminal outside the sites, or at no known site. */
  predicate LiveOutside(db: Db, person: Person, sites: set<int>) {
    exists i :: 0 <= i < |db.enrolments| && LiveElsewhere(db.enrolments[i], db.terminals, person, sites)
  }

  predicate LiveElsewhere(e: Enrolment, terminals: map<int, Terminal>, person: Person, sites: set<int>) {
    e.person == person && Live(e)
    && (e.deviceId.None? || e.deviceId.value !in terminals || terminals[e.deviceId.value].siteId !in sites)
  }

  function Opened(db: Db, person: Person, deviceId: int, window: int): Db {
    db.(jobs := db.jobs + [Job(deviceId, JobPending)],
        enrolments := db.enrolments + [Enrolment(person, Some(deviceId), Some(|db.jobs|), Pending, Some(db.now + window))])
  }

  /** Windows that have run out are closed first, in their own transaction, when the caller is site-bounded. */
  function BeforeStart(db: Db, reach: Option<set<int>>): Db {
    if reach.Some? then ExpireStep(db) else db
  }

  function StartStep(db: Db, person: Person, deviceId: int, seconds: int, reach: Option<set<int>>): (Db, Option<StartError>) {
    var due := BeforeStart(db, reach);
    if TargetError(due, person.companyId, deviceId).Some? then (due, TargetError(due, person.companyId, deviceId))
    else if person !in due.people then (due, Some(PersonNotFound))
    else if reach.Some? && LiveOutside(due, person, reach.value) then (due, Some(OutOfReach))
    else (Opened(SupersedeStep(due, person), person, deviceId, Window(seconds)), None)
  }

  predicate HasLive(es: seq<Enrolment>, person: Person) {
    exists i :: 0 <= i < |es| && es[i].person == person && Live(es[i])
  }

  /** CancelFingerprintEnrollment: false when there is no such person or nothing live to stop. */
  function CancelStep(db: Db, person: Person): (Db, bool) {
    if person in db.people && HasLive(db.enrolments, person) then (SupersedeStep(db, person), true) else (db, false)
  }

  // ---- Terminals' reports ------------------------------------------------------------------------

  /** UPDATE ... SET status WHERE a test holds, leaving the jobs alone. */
  function DeliveredBy(deviceId: int, job: nat): Enrolment -> bool {
    (e: Enrolment) => e.job == Some(job) && e.deviceId == Some(deviceId) && e.status == Pending
  }

  function FailedBy(deviceId: int, job: nat): Enrolment -> bool {
    (e: Enrolment) => e.job == Some(job) && e.deviceId == Some(deviceId) && Live(e)
  }

  function CompletedBy(deviceId: int, person: Person): Enrolment -> bool {
    (e: Enrolment) => e.person == person && e.deviceId == Some(deviceId) && Completable(e)
  }

  predicate Completable(e: Enrolment) { Live(e) || e.status == Expired || e.status == Failed }

  /** A site-key report names no terminal and reaches every row; an unaddressed row is reached by any report. */
  predicate Reaches(reporter: Option<int>, addressed: Option<int>) {
    reporter.None? || addressed.None? || addressed == reporter
  }

  /** CompleteEnrollment. */
  function ReportedBy(deviceId: Option<int>, person: Person): Enrolment -> bool {
    (e: Enrolment) => e.person == person && Completable(e) && Reaches(deviceId, e.deviceId)
  }

  /** The report of a person who is not there, or no longer there, closes nothing. */
  function ReportStep(db: Db, person: Person, deviceId: Option<int>): (Db, bool) {
    if person in db.people then (MarkStep(db, ReportedBy(deviceId, person), Completed), true) else (db, false)
  }

  /** CreateEnrollmentRequest: the site key's request supersedes and opens a row that names no terminal. */
  function RequestStep(db: Db, person: Person): (Db, bool) {
    if person !in db.people then (db, false)
    else
      var after := SupersedeStep(db, person);
      (after.(enrolments := after.enrolments + [Enrolment(person, None, None, Pending, None)]), true)
  }

  function MarkStep(db: Db, which: Enrolment -> bool, status: Status): Db {
    db.(enrolments := Retired(db.enrolments, which, status))
  }

  function Delivered(db: Db, deviceId: int, ids: seq<nat>): Db {
    if ids == [] then db
    else MarkStep(Delivered(db, deviceId, ids[..|ids| - 1]), DeliveredBy(deviceId, ids[|ids| - 1]), InProgress)
  }

  /** The person's most recent enrolment at one terminal. */
  function LatestAt(es: seq<Enrolment>, person: Person, deviceId: int): Option<nat> {
    if es == [] then None
    else if es[|es| - 1].person == person && es[|es| - 1].deviceId == Some(deviceId) then Some(|es| - 1)
    else LatestAt(es[..|es| - 1], person, deviceId)
  }

  /** DispositionForDeviceReport: whether a report may bind a credential. */
  predicate Binds(es: seq<Enrolment>, person: Person, deviceId: int) {
    var latest := LatestAt(es, person, deviceId);
    latest.None? || LatestIn(es, person, deviceId).status != Cancelled
  }

  function LatestIn(es: seq<Enrolment>, person: Person, deviceId: int): Enrolment
    requires LatestAt(es, person, deviceId).Some?
  {
    LatestAtInRange(es, person, deviceId);
    es[LatestAt(es, person, deviceId).value]
  }

  lemma {:induction false} LatestAtInRange(es: seq<Enrolment>, person: Person, deviceId: int)
    ensures var latest := LatestAt(es, person, deviceId);
            && (latest.Some? ==> latest.value < |es| && es[latest.value].person == person && es[latest.value].deviceId == Some(deviceId)
                                 && forall k :: latest.value < k < |es| ==> es[k].person != person || es[k].deviceId != Some(deviceId))
            && (latest.None? ==> forall k :: 0 <= k < |es| ==> es[k].person != person || es[k].deviceId != Some(deviceId))
  {
    if es != [] && !(es[|es| - 1].person == person && es[|es| - 1].deviceId == Some(deviceId)) {
      LatestAtInRange(es[..|es| - 1], person, deviceId);
    }
  }

  // ---- What an update means to its callers -------------------------------------------------------------

  /** The person's most recent enrolment at a terminal is live. */
  predicate LiveAt(es: seq<Enrolment>, person: Person, deviceId: int) {
    LatestAt(es, person, deviceId).Some? && Live(LatestIn(es, person, deviceId))
  }

  /** A job changes exactly when it was in flight and a row that changed carried it; then it is cancelled. */
  ghost predicate JobsFollow(es: seq<Enrolment>, fs: seq<Enrolment>, jobs: seq<Job>, after: seq<Job>)
    requires |es| <= |fs|
  {
    |after| == |jobs|
    && forall k :: 0 <= k < |jobs| ==>
         after[k] == if InFlight(jobs[k]) && Carried(es, fs, k) then jobs[k].(status := JobCancelled) else jobs[k]
  }

  ghost predicate Carried(es: seq<Enrolment>, fs: seq<Enrolment>, k: nat)
    requires |es| <= |fs|
  {
    exists i :: 0 <= i < |es| && fs[i] != es[i] && es[i].job == Some(k)
  }

  lemma {:induction false} JobsOfDue(es: seq<Enrolment>, due: Enrolment -> bool)
    ensures forall k :: k in JobsOf(es, due) <==> exists i :: 0 <= i < |es| && due(es[i]) && es[i].job == Some(k)
  {
    if es != [] {
      var before, last := es[..|es| - 1], es[|es| - 1];
      JobsOfDue(before, due);
      forall k ensures k in JobsOf(es, due) <==> exists i :: 0 <= i < |es| && due(es[i]) && es[i].job == Some(k) {
        if k in JobsOf(before, due) {
          var i :| 0 <= i < |before| && due(before[i]) && before[i].job == Some(k);
          assert es[i] == before[i];
        }
        if i :| 0 <= i < |es| && due(es[i]) && es[i].job == Some(k) {
          if i < |before| { assert before[i] == es[i]; }
        }
      }
    }
  }

  /** Withdrawing live rows stops their jobs and no others. */
  lemma RetiredJobsFollow(db: Db, due: Enrolment -> bool, status: Status)
    requires status != Pending && status != InProgress && forall e :: due(e) ==> Live(e)
    ensures JobsFollow(db.enrolments, RetireStep(db, due, status).enrolments, db.jobs, RetireStep(db, due, status).jobs)
  {
    var es, fs := db.enrolments, RetireStep(db, due, status).enrolments;
    JobsOfDue(es, due);
    hide JobsOf;
    forall k: nat ensures k in JobsOf(es, due) <==> Carried(es, fs, k) {
      if k in JobsOf(es, due) {
        var i :| 0 <= i < |es| && due(es[i]) && es[i].job == Some(k);
        assert fs[i] != es[i];
      }
    }
  }

  lemma {:induction false} SamePlaces(es: seq<Enrolment>, fs: seq<Enrolment>, person: Person, deviceId: int)
    requires |fs| == |es|
    requires forall i :: 0 <= i < |es| ==> fs[i].person == es[i].person && fs[i].deviceId == es[i].deviceId
    ensures LatestAt(fs, person, deviceId) == LatestAt(es, person, deviceId)
  {
    if es != [] {
      SamePlaces(es[..|es| - 1], fs[..|fs| - 1], person, deviceId);
    }
  }

  /** An update that cancels nothing changes no terminal's disposition. */
  lemma MarkingBindsAlike(es: seq<Enrolment>, which: Enrolment -> bool, status: Status)
    requires status != Cancelled && forall e :: which(e) ==> e.status != Cancelled
    ensures forall person, deviceId :: Binds(Retired(es, which, status), person, deviceId) <==> Binds(es, person, deviceId)
  {
    forall person, deviceId ensures Binds(Retired(es, which, status), person, deviceId) <==> Binds(es, person, deviceId) {
      SamePlaces(es, Retired(es, which, status), person, deviceId);
      LatestAtInRange(es, person, deviceId);
    }
  }

  /** Cancelling a person's live rows refuses the reports of exactly the terminals where one was the latest. */
  lemma CancellingBinds(es: seq<Enrolment>, person: Person)
    ensures forall other, deviceId :: Binds(Retired(es, OfPerson(person), Cancelled), other, deviceId) <==>
              Binds(es, other, deviceId) && !(other == person && LiveAt(es, person, deviceId))
  {
    forall other, deviceId
      ensures Binds(Retired(es, OfPerson(person), Cancelled), other, deviceId) <==>
                Binds(es, other, deviceId) && !(other == person && LiveAt(es, person, deviceId))
    {
      SamePlaces(es, Retired(es, OfPerson(person), Cancelled), other, deviceId);
      LatestAtInRange(es, other, deviceId);
    }
  }

  /** A row added elsewhere leaves the latest row at a terminal what it was. */
  lemma AddedElsewhere(es: seq<Enrolment>, e: Enrolment, person: Person, deviceId: int)
    requires e.person != person || e.deviceId != Some(deviceId)
    ensures LatestAt(es + [e], person, deviceId) == LatestAt(es, person, deviceId)
    ensures Binds(es + [e], person, deviceId) <==> Binds(es, person, deviceId)
  {
    assert (es + [e])[..|es|] == es;
    LatestAtInRange(es, person, deviceId);
  }

  // ---- What the sync engine does to a job -------------------------------------------------------------

  /** AckJobCompleted, AckJobFailed (an enrolment job has one attempt), AckJobBusy, and the queue being cancelled. */
  datatype Ack = AckCompleted | AckFailed | AckBusy | QueueCancelled

  function AckStatus(status: JobStatus, ack: Ack): JobStatus {
    match ack
    case AckCompleted => if status != JobCancelled then JobCompleted else status
    case AckFailed => if status == JobPending || status == JobFailed then JobFailed else status
    case AckBusy => if status == JobPending || status == JobFailed then JobPending else status
    case QueueCancelled => if status == JobPending || status == JobFailed then JobCancelled else status
  }

  function AckStep(db: Db, deviceId: int, job: nat, ack: Ack): Db {
    if job < |db.jobs| && db.jobs[job].deviceId == deviceId
    then db.(jobs := db.jobs[job := db.jobs[job].(status := AckStatus(db.jobs[job].status, ack))]) else db
  }

  // ---- The store ----------------------------------------------------------------------------------------

  class EnrollmentStore {
    var now: int
    var people: set<Person>
    var terminals: map<int, Terminal>
    var enrolments: seq<Enrolment>
    var jobs: seq<Job>

    constructor (start: int, known: set<Person>, installed: map<int, Terminal>)
      ensures State() == Db(start, known, installed, [], [])
    {
      now, people, terminals, enrolments, jobs := start, known, installed, [], [];
    }

    ghost function State(): Db
      reads this
    {
      Db(now, people, terminals, enrolments, jobs)
    }

    /** One UPDATE ... RETURNING sync_job_id. */
    method UpdateReturning(which: Enrolment -> bool, status: Status) returns (ids: seq<nat>)
      modifies `enrolments
      ensures enrolments == Retired(old(enrolments), which, status)
      ensures ids == JobsOf(old(enrolments), which)
    {
      ids := [];
      ghost var rows := enrolments;
      for i := 0 to |enrolments|
        invariant |enrolments| == |rows|
        invariant forall k :: 0 <= k < i ==> enrolments[k] == if which(rows[k]) then rows[k].(status := status) else rows[k]
        invariant forall k :: i <= k < |rows| ==> enrolments[k] == rows[k]
        invariant ids == JobsOf(rows[..i], which)
      {
        var e := enrolments[i];
        assert rows[..i + 1][..i] == rows[..i];
        if which(e) {
          if e.job.Some? {
            ids := ids + [e.job.value];
          }
          enrolments := enrolments[i := e.(status := status)];
        }
      }
      assert rows[..|rows|] == rows;
    }

    /** The loop that cancels the returned jobs. */
    method CancelEach(ids: seq<nat>)
      modifies `jobs
      ensures jobs == CancelJobs(old(jobs), ids)
    {
      hide CancelJobs;
      ghost var queue := jobs;
      CancelNothing(queue);
      for n := 0 to |ids|
        invariant jobs == CancelJobs(queue, ids[..n])
      {
        CancelOneMore(queue, ids, n);
        if ids[n] < |jobs| && InFlight(jobs[ids[n]]) {
          jobs := jobs[ids[n] := jobs[ids[n]].(status := JobCancelled)];
        }
      }
      assert ids[..|ids|] == ids;
    }

    /** An enrolment and its job are retired in one transaction. */
    method RetireLive(due: Enrolment -> bool, status: Status)
      modifies `enrolments, `jobs
      ensures State() == RetireStep(old(State()), due, status)
    {
      var ids := UpdateReturning(due, status);
      CancelEach(ids);
    }

    method ExpireDueEnrollments()
      modifies `enrolments, `jobs
      ensures State() == ExpireStep(old(State()))
      ensures |enrolments| == |old(enrolments)|
      ensures forall i | 0 <= i < |enrolments| ::
                || enrolments[i] == old(enrolments)[i]
                || (Live(old(enrolments)[i]) && enrolments[i] == old(enrolments)[i].(status := Expired))
      ensures forall i | 0 <= i < |enrolments| :: enrolments[i] != old(enrolments)[i] ==>
                enrolments[i].expiresAt.Some? && enrolments[i].expiresAt.value <= now
      ensures forall e :: e in enrolments && Live(e) && e.expiresAt.Some? ==> now < e.expiresAt.value
      ensures JobsFollow(old(enrolments), enrolments, old(jobs), jobs)
      ensures forall person, deviceId :: Binds(enrolments, person, deviceId) <==> Binds(old(enrolments), person, deviceId)
    {
      RetiredJobsFollow(State(), DueAt(now), Expired);
      MarkingBindsAlike(enrolments, DueAt(now), Expired);
      hide JobsFollow;
      hide Binds;
      hide JobsOf;
      hide CancelJobs;
      RetireLive(DueAt(now), Expired);
    }

    method StartFingerprintEnrollment(person: Person, deviceId: int, seconds: int, reach: Option<set<int>>)
      returns (error: Option<StartError>)
      modifies `enrolments, `jobs
      ensures (State(), error) == StartStep(old(State()), person, deviceId, seconds, reach)
    {
      hide RetireStep;
      hide LiveElsewhere;
      hide OfPerson;
      hide DueAt;
      if reach.Some? {
        ExpireDueEnrollments();
      }
      var window := seconds;
      if window <= 0 {
        window := DEFAULT_WINDOW;
      }
      if window < MIN_WINDOW {
        window := MIN_WINDOW;
      }
      if window > MAX_WINDOW {
        window := MAX_WINDOW;
      }
      if deviceId !in terminals || terminals[deviceId].companyId != person.companyId || terminals[deviceId].deleted {
        return Some(DeviceNotFound);
      }
      if !terminals[deviceId].active || terminals[deviceId].disabled || !terminals[deviceId].hasKey {
        return Some(NotEnrollable);
      }
      if person !in people {
        return Some(PersonNotFound);
      }
      if reach.Some? {
        for i := 0 to |enrolments|
          invariant forall k :: 0 <= k < i ==> !LiveElsewhere(enrolments[k], terminals, person, reach.value)
        {
          if LiveElsewhere(enrolments[i], terminals, person, reach.value) {
            return Some(OutOfReach);
          }
        }
      }
      RetireLive(OfPerson(person), Cancelled);
      var job := |jobs|;
      jobs := jobs + [Job(deviceId, JobPending)];
      enrolments := enrolments + [Enrolment(person, Some(deviceId), Some(job), Pending, Some(now + window))];
      return None;
    }

    method CancelFingerprintEnrollment(person: Person) returns (ok: bool)
      modifies `enrolments, `jobs
      ensures (State(), ok) == CancelStep(old(State()), person)
      ensures ok <==> person in people && HasLive(old(enrolments), person)
      ensures !ok ==> State() == old(State())
      ensures |enrolments| == |old(enrolments)|
      ensures forall i | 0 <= i < |enrolments| ::
                || enrolments[i] == old(enrolments)[i]
                || (Live(old(enrolments)[i]) && old(enrolments)[i].person == person
                    && enrolments[i] == old(enrolments)[i].(status := Cancelled))
      ensures ok ==> !HasLive(enrolments, person)
      ensures ok ==> JobsFollow(old(enrolments), enrolments, old(jobs), jobs)
      ensures ok ==> forall other, deviceId :: Binds(enrolments, other, deviceId) <==>
                       Binds(old(enrolments), other, deviceId) && !(other == person && LiveAt(old(enrolments), person, deviceId))
    {
      RetiredJobsFollow(State(), OfPerson(person), Cancelled);
      CancellingBinds(enrolments, person);
      hide JobsFollow;
      hide Binds;
      hide LiveAt;
      hide JobsOf;
      hide CancelJobs;
      if person !in people || !HasLive(enrolments, person) {
        return false;
      }
      RetireLive(OfPerson(person), Cancelled);
      return true;
    }

    method MarkEnrollmentDelivered(deviceId: int, ids: seq<nat>)
      modifies `enrolments
      ensures State() == Delivered(old(State()), deviceId, ids)
    {
      ghost var before := State();
      for n := 0 to |ids|
        invariant State() == Delivered(before, deviceId, ids[..n])
      {
        assert ids[..n + 1][..n] == ids[..n];
        var _ := UpdateReturning(DeliveredBy(deviceId, ids[n]), InProgress);
      }
      assert ids[..|ids|] == ids;
    }

    method FailEnrollmentForJob(deviceId: int, job: nat)
      modifies `enrolments
      ensures State() == MarkStep(old(State()), FailedBy(deviceId, job), Failed)
      ensures |enrolments| == |old(enrolments)|
      ensures forall i | 0 <= i < |enrolments| ::
                || enrolments[i] == old(enrolments)[i]
                || (Live(old(enrolments)[i]) && enrolments[i] == old(enrolments)[i].(status := Failed)
                    && enrolments[i].deviceId == Some(deviceId) && enrolments[i].job == Some(job))
      ensures forall e :: e in enrolments && e.deviceId == Some(deviceId) && e.job == Some(job) ==> !Live(e)
      ensures forall person, at :: Binds(enrolments, person, at) <==> Binds(old(enrolments), person, at)
    {
      MarkingBindsAlike(enrolments, FailedBy(deviceId, job), Failed);
      hide Binds;
      var _ := UpdateReturning(FailedBy(deviceId, job), Failed);
    }

    method CompleteEnrollmentForDevice(person: Person, deviceId: int)
      modifies `enrolments
      ensures State() == MarkStep(old(State()), CompletedBy(deviceId, person), Completed)
      ensures |enrolments| == |old(enrolments)|
      ensures forall i | 0 <= i < |enrolments| ::
                || enrolments[i] == old(enrolments)[i]
                || (old(enrolments)[i].status != Cancelled && enrolments[i] == old(enrolments)[i].(status := Completed)
                    && enrolments[i].person == person && enrolments[i].deviceId == Some(deviceId))
      ensures forall e :: e in enrolments && e.person == person && e.deviceId == Some(deviceId) ==>
                            e.status == Completed || e.status == Cancelled
      ensures forall other, at :: Binds(enrolments, other, at) <==> Binds(old(enrolments), other, at)
    {
      MarkingBindsAlike(enrolments, CompletedBy(deviceId, person), Completed);
      hide Binds;
      var _ := UpdateReturning(CompletedBy(deviceId, person), Completed);
    }

    /** CompleteEnrollment, as far as the enrolment rows. */
    method CompleteEnrollment(person: Person, deviceId: Option<int>) returns (ok: bool)
      modifies `enrolments
      ensures (State(), ok) == ReportStep(old(State()), person, deviceId)
      ensures ok <==> person in people
      ensures !ok ==> enrolments == old(enrolments)
      ensures |enrolments| == |old(enrolments)|
      ensures forall i | 0 <= i < |enrolments| ::
                || enrolments[i] == old(enrolments)[i]
                || (old(enrolments)[i].status != Cancelled && enrolments[i] == old(enrolments)[i].(status := Completed)
                    && enrolments[i].person == person
                    && (deviceId == None || enrolments[i].deviceId == None || enrolments[i].deviceId == deviceId))
      ensures ok ==> forall e :: e in enrolments && e.person == person
                                   && (deviceId == None || e.deviceId == None || e.deviceId == deviceId) ==>
                                   e.status == Completed || e.status == Cancelled
      ensures forall other, at :: Binds(enrolments, other, at) <==> Binds(old(enrolments), other, at)
    {
      MarkingBindsAlike(enrolments, ReportedBy(deviceId, person), Completed);
      hide Binds;
      if person !in people {
        return false;
      }
      var _ := UpdateReturning(ReportedBy(deviceId, person), Completed);
      return true;
    }

    method CreateEnrollmentRequest(person: Person) returns (ok: bool)
      modifies `enrolments, `jobs
      ensures (State(), ok) == RequestStep(old(State()), person)
      ensures ok <==> person in people
      ensures !ok ==> State() == old(State())
      ensures ok ==>
                var n := |old(enrolments)|;
                && |enrolments| == n + 1 && enrolments[n] == Enrolment(person, None, None, Pending, None)
                && (forall i | 0 <= i < n ::
                      || enrolments[i] == old(enrolments)[i]
                      || (Live(old(enrolments)[i]) && enrolments[i] == old(enrolments)[i].(status := Cancelled)))
                && (forall i | 0 <= i < n ::
                      if enrolments[i].person == person then !Live(enrolments[i]) else enrolments[i] == old(enrolments)[i])
                && JobsFollow(old(enrolments), enrolments, old(jobs), jobs)
      ensures ok ==> forall other, deviceId :: Binds(enrolments, other, deviceId) <==>
                       Binds(old(enrolments), other, deviceId) && !(other == person && LiveAt(old(enrolments), person, deviceId))
    {
      ghost var es := enrolments;
      RetiredJobsFollow(State(), OfPerson(person), Cancelled);
      CancellingBinds(enrolments, person);
      RequestBinds(enrolments, person);
      hide Binds;
      hide LiveAt;
      hide JobsOf;
      hide CancelJobs;
      if person !in people {
        return false;
      }
      RetireLive(OfPerson(person), Cancelled);
      ghost var fs := enrolments;
      enrolments := enrolments + [Enrolment(person, None, None, Pending, None)];
      FollowedFurther(es, fs, enrolments, old(jobs), jobs);
      return true;
    }

    method DispositionForDeviceReport(person: Person, deviceId: int) returns (bind: bool)
      ensures bind == Binds(enrolments, person, deviceId)
    {
      LatestAtInRange(enrolments, person, deviceId);
      var n := |enrolments|;
      while n > 0
        invariant 0 <= n <= |enrolments|
        invariant forall k :: n <= k < |enrolments| ==> enrolments[k].person != person || enrolments[k].deviceId != Some(deviceId)
      {
        n := n - 1;
        if enrolments[n].person == person && enrolments[n].deviceId == Some(deviceId) {
          return enrolments[n].status != Cancelled;
        }
      }
      return true;
    }
  }

  lemma FollowedFurther(es: seq<Enrolment>, fs: seq<Enrolment>, gs: seq<Enrolment>, jobs: seq<Job>, after: seq<Job>)
    requires |es| == |fs| <= |gs| && gs[..|fs|] == fs && JobsFollow(es, fs, jobs, after)
    ensures JobsFollow(es, gs, jobs, after)
  {
    forall k: nat ensures Carried(es, gs, k) <==> Carried(es, fs, k) {
      if i :| 0 <= i < |es| && gs[i] != es[i] && es[i].job == Some(k) { assert fs[i] == gs[i]; }
      if i :| 0 <= i < |es| && fs[i] != es[i] && es[i].job == Some(k) { assert gs[i] == fs[i]; }
    }
  }

  /** A request's own row is at no terminal. */
  lemma RequestBinds(es: seq<Enrolment>, person: Person)
    ensures var fs := Retired(es, OfPerson(person), Cancelled);
            forall other, deviceId :: Binds(fs + [Enrolment(person, None, None, Pending, None)], other, deviceId) <==> Binds(fs, other, deviceId)
  {
    var fs := Retired(es, OfPerson(person), Cancelled);
    var e := Enrolment(person, None, None, Pending, None);
    forall other, deviceId ensures Binds(fs + [e], other, deviceId) <==> Binds(fs, other, deviceId) {
      AddedElsewhere(fs, e, other, deviceId);
    }
  }

  lemma CancelNothing(jobs: seq<Job>)
    ensures CancelJobs(jobs, []) == jobs
  {
  }

  lemma CancelOneMore(jobs: seq<Job>, ids: seq<nat>, n: nat)
    requires n < |ids|
    ensures |CancelJobs(jobs, ids[..n])| == |jobs|
    ensures CancelJobs(jobs, ids[..n + 1])
         == var before := CancelJobs(jobs, ids[..n]);
            if ids[n] < |jobs| && InFlight(before[ids[n]]) then before[ids[n] := before[ids[n]].(status := JobCancelled)] else before
  {
    assert ids[..n + 1] == ids[..n] + [ids[n]];
  }
}
