/**
 * Usage telemetry (database/api_credentials.go): uses are noted in a buffer on the request
 * path and written to the tables by a later flush.
 *
 * The conservation law is that what the tables hold plus what the buffer holds is what was
 * noted. A flush empties the buffer first and then takes one statement for each time and each
 * count; it keeps the law exactly when the database takes them all or there was nothing to lose.
 */
module CredentialUsage {
  import opened Options

  datatype UsageCount = UsageCount(requests: nat, refusals: nat)

  function Plus(a: UsageCount, b: UsageCount): UsageCount {
    UsageCount(a.requests + b.requests, a.refusals + b.refusals)
  }

  const ZERO := UsageCount(0, 0)

  /** A day and a request class. */
  datatype Slot = Slot(day: nat, class_: string)

  /** The key of a row of api_usage_daily. */
  datatype Key = Key(id: int, slot: Slot)

  /** credentialUse: the zero time is 0, as it is before anything was noted. */
  datatype Use = Use(at: nat, ip: string, counts: map<Slot, UsageCount>)

  /** The row of api_credentials the flush updates. */
  datatype LastUse = LastUse(at: Option<nat>, ip: string)

  datatype Usage = Usage(buffer: map<int, Use>, lastUse: map<int, LastUse>, daily: map<Key, UsageCount>)

  const SECONDS_A_DAY := 86400

  function DayOf(at: nat): nat { at / SECONDS_A_DAY }

  function CountIn(counts: map<Slot, UsageCount>, slot: Slot): UsageCount {
    if slot in counts then counts[slot] else ZERO
  }

  function Buffered(buffer: map<int, Use>, id: int, slot: Slot): UsageCount {
    if id in buffer then CountIn(buffer[id].counts, slot) else ZERO
  }

  function Stored(daily: map<Key, UsageCount>, id: int, slot: Slot): UsageCount {
    if Key(id, slot) in daily then daily[Key(id, slot)] else ZERO
  }

  function BufferedAt(buffer: map<int, Use>, id: int): nat {
    if id in buffer then buffer[id].at else 0
  }

  /** last_used_at, reading NULL as the zero time. */
  function StoredAt(lastUse: map<int, LastUse>, id: int): nat {
    if id in lastUse && lastUse[id].at.Some? then lastUse[id].at.value else 0
  }

  function Max(a: nat, b: nat): nat { if a < b then b else a }

  // ---- Note ------------------------------------------------------------------------------

  datatype Event = Note(id: int, ip: string, class_: string, at: nat, refused: bool) | Flush

  function OneMore(count: UsageCount, refused: bool): UsageCount {
    if refused then count.(refusals := count.refusals + 1) else count.(requests := count.requests + 1)
  }

  function Noted(buffer: map<int, Use>, e: Event): map<int, Use>
    requires e.Note?
  {
    if e.id == 0 then buffer
    else
      var use := if e.id in buffer then buffer[e.id] else Use(0, "", map[]);
      var seen := if e.at > use.at then use.(at := e.at, ip := if e.ip != "" then e.ip else use.ip) else use;
      var slot := Slot(DayOf(e.at), e.class_);
      var counted := if e.class_ == "" then seen
                     else seen.(counts := seen.counts[slot := OneMore(CountIn(seen.counts, slot), e.refused)]);
      buffer[e.id := counted]
  }

  // ---- Flush -----------------------------------------------------------------------------

  /** GREATEST(COALESCE(last_used_at, at), at), and the address only when one was noted. */
  function Touched(last: LastUse, use: Use): LastUse {
    LastUse(Some(if last.at.Some? then Max(last.at.value, use.at) else use.at), if use.ip != "" then use.ip else last.ip)
  }

  function TouchedBy(lastUse: map<int, LastUse>, pending: map<int, Use>, done: set<Statement>): map<int, LastUse> {
    map id | id in lastUse :: if id in pending && Touch(id) in done then Touched(lastUse[id], pending[id]) else lastUse[id]
  }

  /** One statement of a flush: the time of a credential, or one of its counts. */
  datatype Statement = Touch(id: int) | Count(key: Key)

  function IdOf(x: Statement): int {
    match x case Touch(id) => id case Count(key) => key.id
  }

  predicate IsStatement(pending: map<int, Use>, x: Statement) {
    match x
    case Touch(id) => id in pending && pending[id].at != 0
    case Count(key) => key.id in pending && key.slot in pending[key.id].counts
  }

  function Statements(pending: map<int, Use>): set<Statement> {
    (set id | id in pending && pending[id].at != 0 :: Touch(id))
    + (set id, slot | id in pending && slot in pending[id].counts :: Count(Key(id, slot)))
  }

  /** How many statements a flush takes, whether or not the credentials still exist. */
  function Needed(pending: map<int, Use>): nat { |Statements(pending)| }

  lemma StatementsAre(pending: map<int, Use>)
    ensures forall x :: x in Statements(pending) <==> IsStatement(pending, x)
  {
    forall x ensures x in Statements(pending) <==> IsStatement(pending, x) {
      match x
      case Touch(id) =>
      case Count(key) => assert key == Key(key.id, key.slot);
    }
  }

  /** The counts some statements write: none for a credential that is gone. */
  function Written(existing: set<int>, done: set<Statement>): set<Key> {
    set x | x in done && x.Count? && x.key.id in existing :: x.key
  }

  function Merged(daily: map<Key, UsageCount>, pending: map<int, Use>, keys: set<Key>): map<Key, UsageCount> {
    map key | key in daily.Keys + keys ::
      if key in keys then Plus(Stored(daily, key.id, key.slot), Buffered(pending, key.id, key.slot)) else daily[key]
  }

  /** After a flush that got through some of its statements: the buffer is empty whatever was written. */
  function AfterStatements(u: Usage, done: set<Statement>): Usage {
    Usage(map[], TouchedBy(u.lastUse, u.buffer, done), Merged(u.daily, u.buffer, Written(u.lastUse.Keys, done)))
  }

  function Flushed(u: Usage): Usage { AfterStatements(u, Statements(u.buffer)) }

  /**
   * Where a flush can stop: credentials are taken one after the other, in any order, the time
   * of each before its counts, and the counts a day at a time, days and classes in any order.
   */
  ghost predicate StoppedAt(pending: map<int, Use>, done: set<Statement>, current: int, day: nat) {
    && (forall x :: x in done ==> IsStatement(pending, x))
    && (forall x, y :: x in done && IsStatement(pending, y) && IdOf(x) == IdOf(y) && IdOf(y) != current ==> y in done)
    && (forall x :: x in done && IdOf(x) == current && IsStatement(pending, Touch(current)) ==> Touch(current) in done)
    && DaysWhole(pending, done, day)
  }

  /** Of every day but one, all the counts of a credential are done or none. */
  ghost predicate DaysWhole(pending: map<int, Use>, done: set<Statement>, day: nat) {
    forall x, y :: Count(x) in done && IsStatement(pending, Count(y)) && x.id == y.id && x.slot.day == y.slot.day != day ==>
      Count(y) in done
  }

  ghost predicate Stopped(pending: map<int, Use>, done: set<Statement>) {
    exists current, day :: StoppedAt(pending, done, current, day)
  }

  function Min(a: nat, b: nat): nat { if a < b then a else b }

  function Happened(u: Usage, e: Event): Usage {
    match e
    case Note(_, _, _, _, _) => u.(buffer := Noted(u.buffer, e))
    case Flush => Flushed(u)
  }

  function After(u: Usage, events: seq<Event>): Usage {
    if events == [] then u else Happened(After(u, events[..|events| - 1]), events[|events| - 1])
  }

  // ---- The store ----------------------------------------------------------------------------

  class UsageRecorder {
    var buffer: map<int, Use>
    var lastUse: map<int, LastUse>
    var daily: map<Key, UsageCount>

    constructor (credentials: map<int, LastUse>)
      ensures State() == Usage(map[], credentials, map[])
    {
      buffer, lastUse, daily := map[], credentials, map[];
    }

    ghost function State(): Usage
      reads this
    {
      Usage(buffer, lastUse, daily)
    }

    /** NoteAPICredentialUse. */
    method NoteUse(id: int, ip: string, class_: string, at: nat, refused: bool)
      modifies `buffer
      ensures State() == Happened(old(State()), Note(id, ip, class_, at, refused))
      ensures id == 0 ==> buffer == old(buffer)
      ensures id != 0 ==>
                var was := if id in old(buffer) then old(buffer)[id] else Use(0, "", map[]);
                && id in buffer && buffer == old(buffer)[id := buffer[id]]
                && buffer[id].at == (if at > was.at then at else was.at)
                && buffer[id].ip == (if at > was.at && ip != "" then ip else was.ip)
                && buffer[id].counts == if class_ == "" then was.counts
                                        else was.counts[Slot(at / 86400, class_) := buffer[id].counts[Slot(at / 86400, class_)]]
    {
      if id == 0 {
        return;
      }
      if id !in buffer {
        buffer := buffer[id := Use(0, "", map[])];
      }
      var use := buffer[id];
      if at > use.at {
        use := use.(at := at, ip := if ip != "" then ip else use.ip);
      }
      buffer := buffer[id := use];
      assert buffer == old(buffer)[id := use];
      if class_ == "" {
        return;
      }
      var slot := Slot(DayOf(at), class_);
      var count := CountIn(use.counts, slot);
      if refused {
        count := count.(refusals := count.refusals + 1);
      } else {
        count := count.(requests := count.requests + 1);
      }
      var counted := use.(counts := use.counts[slot := count]);
      buffer := buffer[id := counted];
      assert buffer == old(buffer)[id := counted];
    }

    /**
     * FlushAPICredentialUse, over a database that takes `statements` statements and then fails.
     * It succeeds exactly when that is enough; `done` is what got through.
     */
    method FlushUses(statements: nat) returns (ok: bool, ghost done: set<Statement>)
      modifies this
      ensures Stopped(old(buffer), done) && |done| == Min(statements, Needed(old(buffer)))
      ensures State() == AfterStatements(old(State()), done)
      ensures ok <==> statements >= Needed(old(buffer))
      ensures ok ==> State() == Flushed(old(State()))
    {
      hide Reached;
      hide Statements;
      hide Merged;
      hide Written;
      hide TouchedBy;
      var pending := buffer;
      ghost var oldLast, oldDaily := lastUse, daily;
      StatementsAre(pending);
      buffer := map[];
      done := {};
      var left: nat := statements;
      var ids := pending.Keys;
      ghost var finished: set<int> := {};
      NothingYet(oldLast, oldDaily, pending);
      while ids != {}
        invariant ids !! finished && ids + finished == pending.Keys && buffer == map[]
        invariant left + |done| == statements
        invariant forall x :: x in done <==> IsStatement(pending, x) && IdOf(x) in finished
        invariant Reached(lastUse, daily, oldLast, oldDaily, pending, done)
        decreases |ids|
      {
        NotEmpty(ids);
        var id: int :| id in ids;
        var failed;
        ghost var missing;
        left, failed, done, missing := FlushOne(id, pending[id], left, oldLast, oldDaily, pending, done);
        if failed {
          StopsShort(pending, done, id, missing);
          ReachedMeans(lastUse, daily, oldLast, oldDaily, pending, done);
          return false, done;
        }
        ids := ids - {id};
        finished := finished + {id};
      }
      assert finished == pending.Keys;
      AllDone(pending, done);
      ReachedMeans(lastUse, daily, oldLast, oldDaily, pending, done);
      return true, done;
    }

    /** One credential: its time, then its counts. `missing` is the statement the database failed at. */
    method FlushOne(id: int, use: Use, statements: nat, ghost oldLast: map<int, LastUse>, ghost oldDaily: map<Key, UsageCount>,
                    ghost pending: map<int, Use>, ghost before: set<Statement>)
      returns (left: nat, failed: bool, ghost done: set<Statement>, ghost missing: Statement)
      requires id in pending && pending[id] == use
      requires Reached(lastUse, daily, oldLast, oldDaily, pending, before)
      requires forall x :: x in before ==> IdOf(x) != id
      modifies `daily, `lastUse
      ensures Reached(lastUse, daily, oldLast, oldDaily, pending, done)
      ensures before <= done && |done| + left == |before| + statements
      ensures forall x :: x in done && x !in before ==> IdOf(x) == id && IsStatement(pending, x)
      ensures !failed ==> forall x :: IsStatement(pending, x) && IdOf(x) == id ==> x in done
      ensures failed ==> left == 0 && IsStatement(pending, missing) && IdOf(missing) == id && missing !in done
                         && (missing.Touch? ==> done == before)
                         && (missing.Count? ==> (IsStatement(pending, Touch(id)) ==> Touch(id) in done)
                                                && OthersWhole(pending, done, missing.key))
    {
      hide Reached;
      left, failed, done, missing := statements, false, before, Touch(id);
      if use.at != 0 {
        if left == 0 {
          failed := true;
          return;
        }
        left := left - 1;
        TouchReached(lastUse, daily, oldLast, oldDaily, pending, before, id);
        if id in lastUse {
          lastUse := lastUse[id := Touched(lastUse[id], use)];
        }
        done := done + {Touch(id)};
      }
      ghost var counted: set<Slot>;
      ghost var last: Slot;
      ghost var touched := done;
      left, failed, counted, last := FlushCounts(id, use, left, oldLast, oldDaily, pending, done);
      done := touched + Counts(id, counted);
      StatementsOfOne(pending, id, before, touched, counted);
      DisjointCounts(touched, id, counted);
      if failed {
        missing := Count(Key(id, last));
        OthersAreWhole(pending, id, before, touched, counted, last);
      }
      hide Counts;
      hide IsStatement;
      hide OthersWhole;
    }

    /** The counts of one credential, a day at a time. `missing` is the count the database failed at. */
    method FlushCounts(id: int, use: Use, statements: nat, ghost oldLast: map<int, LastUse>, ghost oldDaily: map<Key, UsageCount>,
                       ghost pending: map<int, Use>, ghost done: set<Statement>)
      returns (left: nat, failed: bool, ghost counted: set<Slot>, ghost missing: Slot)
      requires id in pending && pending[id] == use
      requires Reached(lastUse, daily, oldLast, oldDaily, pending, done)
      requires forall slot :: Count(Key(id, slot)) !in done
      modifies `daily
      ensures Reached(lastUse, daily, oldLast, oldDaily, pending, done + Counts(id, counted))
      ensures counted <= use.counts.Keys && |Counts(id, counted)| + left == statements
      ensures !failed ==> counted == use.counts.Keys
      ensures failed ==> left == 0 && missing in use.counts && missing !in counted && DaysBefore(use, counted, missing.day)
    {
      hide *;
      left, failed, counted, missing := statements, false, {}, Slot(0, "");
      var days := DaysOf(use);
      ghost var finished: set<nat> := {};
      NoCounts(id, done);
      while days != {}
        invariant days !! finished && days + finished == DaysOf(use)
        invariant |Counts(id, counted)| + left == statements
        invariant forall slot :: slot in counted <==> slot in use.counts && slot.day in finished
        invariant Reached(lastUse, daily, oldLast, oldDaily, pending, done + Counts(id, counted))
        decreases |days|
      {
        var day :| day in days;
        ghost var before := counted;
        left, failed, counted, missing := FlushDay(id, use, day, left, oldLast, oldDaily, pending, done, counted);
        if failed {
          DaysBeforeHolds(use, before, counted, finished, day);
          return;
        }
        days := days - {day};
        finished := finished + {day};
      }
      EverySlotHasItsDay(use, counted);
    }

    /** The counts of one day; a credential that is gone keeps none. */
    method FlushDay(id: int, use: Use, day: nat, statements: nat, ghost oldLast: map<int, LastUse>, ghost oldDaily: map<Key, UsageCount>,
                    ghost pending: map<int, Use>, ghost done: set<Statement>, ghost before: set<Slot>)
      returns (left: nat, failed: bool, ghost counted: set<Slot>, ghost missing: Slot)
      requires id in pending && pending[id] == use
      requires Reached(lastUse, daily, oldLast, oldDaily, pending, done + Counts(id, before))
      requires forall slot :: Count(Key(id, slot)) !in done
      requires forall slot :: slot in before ==> slot.day != day
      modifies `daily
      ensures Reached(lastUse, daily, oldLast, oldDaily, pending, done + Counts(id, counted))
      ensures |Counts(id, counted)| + left == |Counts(id, before)| + statements
      ensures forall slot :: slot in before ==> slot in counted
      ensures forall slot :: slot in counted ==> slot in before || (slot in use.counts && slot.day == day)
      ensures !failed ==> forall slot :: slot in use.counts && slot.day == day ==> slot in counted
      ensures failed ==> left == 0 && missing in use.counts && missing.day == day && missing !in counted
    {
      hide *;
      left, failed, counted, missing := statements, false, before, Slot(0, "");
      var slots := set slot | slot in use.counts && slot.day == day;
      while slots != {}
        invariant forall slot :: slot in slots ==> slot in use.counts && slot.day == day && slot !in counted
        invariant forall slot :: slot in before ==> slot in counted
        invariant forall slot :: slot in counted ==> slot in before || (slot in use.counts && slot.day == day)
        invariant forall slot :: slot in use.counts && slot.day == day ==> slot in slots || slot in counted
        invariant |Counts(id, counted)| + left == |Counts(id, before)| + statements
        invariant Reached(lastUse, daily, oldLast, oldDaily, pending, done + Counts(id, counted))
        decreases |slots|
      {
        var slot :| slot in slots;
        if left == 0 {
          failed, missing := true, slot;
          return;
        }
        left := left - 1;
        NextCount(lastUse, daily, oldLast, oldDaily, pending, done, id, counted, slot);
        if id in lastUse {
          daily := daily[Key(id, slot) := Plus(Stored(daily, id, slot), use.counts[slot])];
        }
        slots := slots - {slot};
        counted := counted + {slot};
      }
    }
  }

  function DaysOf(use: Use): set<nat> { set slot | slot in use.counts :: slot.day }

  /** The days written before a given one are written whole. */
  ghost predicate DaysBefore(use: Use, counted: set<Slot>, day: nat) {
    forall x, y :: x in counted && y in use.counts && x.day == y.day != day ==> y in counted
  }

  lemma DaysBeforeHolds(use: Use, before: set<Slot>, counted: set<Slot>, finished: set<nat>, day: nat)
    requires forall slot :: slot in before <==> slot in use.counts && slot.day in finished
    requires forall slot :: slot in before ==> slot in counted
    requires forall slot :: slot in counted ==> slot in before || slot.day == day
    ensures DaysBefore(use, counted, day)
  {
  }

  lemma EverySlotHasItsDay(use: Use, counted: set<Slot>)
    requires forall slot :: slot in counted <==> slot in use.counts && slot.day in DaysOf(use)
    ensures counted == use.counts.Keys
  {
    forall slot | slot in use.counts ensures slot in counted {
      assert slot.day in DaysOf(use);
    }
  }

  /** Of the credential of a count, every day but the count's is done or untouched. */
  ghost predicate OthersWhole(pending: map<int, Use>, done: set<Statement>, key: Key) {
    forall x, y :: Count(x) in done && IsStatement(pending, Count(y)) && x.id == y.id == key.id && x.slot.day == y.slot.day != key.slot.day ==>
      Count(y) in done
  }

  lemma OthersAreWhole(pending: map<int, Use>, id: int, before: set<Statement>, touched: set<Statement>, counted: set<Slot>, missing: Slot)
    requires id in pending && DaysBefore(pending[id], counted, missing.day)
    requires forall x :: x in touched && x.Count? ==> IdOf(x) != id
    ensures OthersWhole(pending, touched + Counts(id, counted), Key(id, missing))
  {
    CountsAre(id, counted);
    hide Counts;
    var done := touched + Counts(id, counted);
    forall x, y | Count(x) in done && IsStatement(pending, Count(y)) && x.id == y.id == id && x.slot.day == y.slot.day != missing.day
      ensures Count(y) in done
    {
      assert x.slot in counted && y.slot in pending[id].counts;
    }
  }

  /** The tables are where some statements take them. */
  ghost predicate Reached(lastUse: map<int, LastUse>, daily: map<Key, UsageCount>, oldLast: map<int, LastUse>,
                          oldDaily: map<Key, UsageCount>, pending: map<int, Use>, done: set<Statement>) {
    && lastUse.Keys == oldLast.Keys
    && lastUse == TouchedBy(oldLast, pending, done)
    && daily == Merged(oldDaily, pending, Written(oldLast.Keys, done))
  }

  ghost function Counts(id: int, slots: set<Slot>): set<Statement> {
    set slot | slot in slots :: Count(Key(id, slot))
  }

  lemma CountsAre(id: int, slots: set<Slot>)
    ensures forall x: Statement :: x in Counts(id, slots) <==> x.Count? && x.key.id == id && x.key.slot in slots
  {
    forall x: Statement | x.Count? && x.key.id == id && x.key.slot in slots ensures x in Counts(id, slots) {
      assert x == Count(Key(id, x.key.slot));
    }
  }

  lemma NoCounts(id: int, done: set<Statement>)
    ensures |Counts(id, {})| == 0 && done + Counts(id, {}) == done
  {
    assert Counts(id, {}) == {};
  }

  lemma OneMoreCount(done: set<Statement>, id: int, slots: set<Slot>, slot: Slot)
    requires slot !in slots && Count(Key(id, slot)) !in done
    ensures |Counts(id, slots + {slot})| == |Counts(id, slots)| + 1
    ensures Count(Key(id, slot)) !in done + Counts(id, slots)
    ensures done + Counts(id, slots + {slot}) == done + Counts(id, slots) + {Count(Key(id, slot))}
  {
    assert Counts(id, slots + {slot}) == Counts(id, slots) + {Count(Key(id, slot))};
  }

  /** What one credential has added after its time and some of its counts. */
  lemma StatementsOfOne(pending: map<int, Use>, id: int, before: set<Statement>, touched: set<Statement>, counted: set<Slot>)
    requires id in pending && counted <= pending[id].counts.Keys
    requires touched == if pending[id].at != 0 then before + {Touch(id)} else before
    requires forall x :: x in before ==> IdOf(x) != id
    ensures var done := touched + Counts(id, counted);
            && before <= done
            && (forall x :: x in done && x !in before ==> IdOf(x) == id && IsStatement(pending, x))
            && (IsStatement(pending, Touch(id)) ==> Touch(id) in done)
            && (counted == pending[id].counts.Keys ==> forall x :: IsStatement(pending, x) && IdOf(x) == id ==> x in done)
            && (forall slot :: slot in pending[id].counts && slot !in counted ==>
                  IsStatement(pending, Count(Key(id, slot))) && Count(Key(id, slot)) !in done)
  {
    CountsAre(id, counted);
    hide Counts;
  }

  lemma ReachedMeans(lastUse: map<int, LastUse>, daily: map<Key, UsageCount>, oldLast: map<int, LastUse>,
                     oldDaily: map<Key, UsageCount>, pending: map<int, Use>, done: set<Statement>)
    requires Reached(lastUse, daily, oldLast, oldDaily, pending, done)
    ensures Usage(map[], lastUse, daily) == AfterStatements(Usage(pending, oldLast, oldDaily), done)
  {
    hide Merged;
    hide Written;
    hide TouchedBy;
  }

  lemma TouchReached(lastUse: map<int, LastUse>, daily: map<Key, UsageCount>, oldLast: map<int, LastUse>,
                     oldDaily: map<Key, UsageCount>, pending: map<int, Use>, done: set<Statement>, id: int)
    requires Reached(lastUse, daily, oldLast, oldDaily, pending, done) && id in pending && Touch(id) !in done
    ensures Reached(if id in lastUse then lastUse[id := Touched(lastUse[id], pending[id])] else lastUse,
                    daily, oldLast, oldDaily, pending, done + {Touch(id)})
  {
    TouchOne(oldLast, oldDaily, pending, done, id);
    hide Merged;
    hide Written;
    hide TouchedBy;
    hide Touched;
  }

  lemma CountReached(lastUse: map<int, LastUse>, daily: map<Key, UsageCount>, oldLast: map<int, LastUse>,
                     oldDaily: map<Key, UsageCount>, pending: map<int, Use>, done: set<Statement>, key: Key)
    requires Reached(lastUse, daily, oldLast, oldDaily, pending, done) && Count(key) !in done
    ensures Reached(lastUse,
                    if key.id in lastUse
                    then daily[key := Plus(Stored(daily, key.id, key.slot), Buffered(pending, key.id, key.slot))] else daily,
                    oldLast, oldDaily, pending, done + {Count(key)})
  {
    CountOne(oldLast, oldDaily, pending, done, key);
    hide Merged;
    hide Written;
    hide TouchedBy;
    hide Plus;
    hide Stored;
    hide Buffered;
  }

  lemma NextCount(lastUse: map<int, LastUse>, daily: map<Key, UsageCount>, oldLast: map<int, LastUse>, oldDaily: map<Key, UsageCount>,
                  pending: map<int, Use>, done: set<Statement>, id: int, counted: set<Slot>, slot: Slot)
    requires Reached(lastUse, daily, oldLast, oldDaily, pending, done + Counts(id, counted))
    requires id in pending && slot in pending[id].counts && slot !in counted && Count(Key(id, slot)) !in done
    ensures Reached(lastUse, if id in lastUse then daily[Key(id, slot) := Plus(Stored(daily, id, slot), pending[id].counts[slot])] else daily,
                    oldLast, oldDaily, pending, done + Counts(id, counted + {slot}))
    ensures |Counts(id, counted + {slot})| == |Counts(id, counted)| + 1
  {
    assert Buffered(pending, id, slot) == pending[id].counts[slot];
    OneMoreCount(done, id, counted, slot);
    hide *;
    CountReached(lastUse, daily, oldLast, oldDaily, pending, done + Counts(id, counted), Key(id, slot));
  }

  lemma DisjointCounts(done: set<Statement>, id: int, slots: set<Slot>)
    requires forall slot :: Count(Key(id, slot)) !in done
    ensures |done + Counts(id, slots)| == |done| + |Counts(id, slots)|
  {
    assert done !! Counts(id, slots);
  }

  lemma NotEmpty(ids: set<int>)
    requires ids != {}
    ensures exists id: int :: id in ids
  {
    if forall id: int :: id !in ids {
      assert false;
    }
  }

  lemma NothingYet(lastUse: map<int, LastUse>, daily: map<Key, UsageCount>, pending: map<int, Use>)
    ensures Reached(lastUse, daily, lastUse, daily, pending, {})
  {
    assert Written(lastUse.Keys, {}) == {};
  }

  lemma TouchOne(oldLast: map<int, LastUse>, oldDaily: map<Key, UsageCount>, pending: map<int, Use>, done: set<Statement>, id: int)
    requires id in pending && Touch(id) !in done
    ensures var before := TouchedBy(oldLast, pending, done);
            TouchedBy(oldLast, pending, done + {Touch(id)})
            == if id in before then before[id := Touched(before[id], pending[id])] else before
    ensures Written(oldLast.Keys, done + {Touch(id)}) == Written(oldLast.Keys, done)
    ensures TouchedBy(oldLast, pending, done).Keys == oldLast.Keys
  {
    hide Touched;
  }

  lemma CountOne(oldLast: map<int, LastUse>, oldDaily: map<Key, UsageCount>, pending: map<int, Use>, done: set<Statement>, key: Key)
    requires Count(key) !in done
    ensures TouchedBy(oldLast, pending, done + {Count(key)}) == TouchedBy(oldLast, pending, done)
    ensures key.id !in oldLast ==> Written(oldLast.Keys, done + {Count(key)}) == Written(oldLast.Keys, done)
    ensures var before := Merged(oldDaily, pending, Written(oldLast.Keys, done));
            key.id in oldLast ==>
              Merged(oldDaily, pending, Written(oldLast.Keys, done + {Count(key)}))
              == before[key := Plus(Stored(before, key.id, key.slot), Buffered(pending, key.id, key.slot))]
  {
    hide Merged;
    hide Plus;
    hide Stored;
    hide Touched;
    var keys := Written(oldLast.Keys, done);
    assert key !in keys;
    if key.id in oldLast {
      assert Written(oldLast.Keys, done + {Count(key)}) == keys + {key};
      MergeOne(oldDaily, pending, keys, key.id, key.slot);
      assert key == Key(key.id, key.slot);
    } else {
      assert Written(oldLast.Keys, done + {Count(key)}) == keys;
    }
  }

  lemma FewerStatements(done: set<Statement>, all: set<Statement>, x: Statement)
    requires done <= all && x in all && x !in done
    ensures |done| < |all|
  {
    assert all == done + (all - done) && x in all - done;
  }

  /** Stopping with a statement still to come. */
  lemma StopsShort(pending: map<int, Use>, done: set<Statement>, id: int, x: Statement)
    requires IsStatement(pending, x) && x !in done && IdOf(x) == id
    requires forall y :: y in done ==> IsStatement(pending, y)
    requires forall y, z :: y in done && IsStatement(pending, z) && IdOf(y) == IdOf(z) != id ==> z in done
    requires x.Count? ==> (IsStatement(pending, Touch(id)) ==> Touch(id) in done) && OthersWhole(pending, done, x.key)
    requires x.Touch? ==> forall y :: y in done ==> IdOf(y) != id
    ensures Stopped(pending, done) && |done| < Needed(pending)
  {
    FewerThanNeeded(pending, done, x);
    hide Needed;
    hide IsStatement;
    var day: nat := if x.Count? then x.key.slot.day else 0;
    forall y, z | Count(y) in done && IsStatement(pending, Count(z)) && y.id == z.id && y.slot.day == z.slot.day != day
      ensures Count(z) in done
    {
      assert IdOf(Count(y)) == IdOf(Count(z)) == y.id;
    }
    assert StoppedAt(pending, done, id, day);
  }

  lemma FewerThanNeeded(pending: map<int, Use>, done: set<Statement>, x: Statement)
    requires IsStatement(pending, x) && x !in done
    requires forall y :: y in done ==> IsStatement(pending, y)
    ensures |done| < Needed(pending)
  {
    StatementsAre(pending);
    hide IsStatement;
    FewerStatements(done, Statements(pending), x);
  }

  lemma AllDone(pending: map<int, Use>, done: set<Statement>)
    requires forall x :: x in done <==> IsStatement(pending, x)
    ensures done == Statements(pending) && Stopped(pending, done)
  {
    StatementsAre(pending);
    assert StoppedAt(pending, done, 0, 0);
  }

  lemma MergeOne(daily: map<Key, UsageCount>, pending: map<int, Use>, keys: set<Key>, id: int, slot: Slot)
    requires Key(id, slot) !in keys
    ensures Merged(daily, pending, keys + {Key(id, slot)})
         == Merged(daily, pending, keys)[Key(id, slot) := Plus(Stored(Merged(daily, pending, keys), id, slot), Buffered(pending, id, slot))]
  {
  }

  // ---- Conservation -------------------------------------------------------------------------------

  /** How many notes of a run fall in a slot. */
  function NotesOf(events: seq<Event>, id: int, slot: Slot): UsageCount {
    if events == [] then ZERO
    else
      var before, e := NotesOf(events[..|events| - 1], id, slot), events[|events| - 1];
      if CountsIn(e, id, slot) then OneMore(before, e.refused) else before
  }

  function LatestNote(events: seq<Event>, id: int): nat {
    if events == [] then 0
    else
      var before, e := LatestNote(events[..|events| - 1], id), events[|events| - 1];
      if e.Note? && e.id == id && id != 0 then Max(before, e.at) else before
  }

  function Total(u: Usage, id: int, slot: Slot): UsageCount {
    Plus(Stored(u.daily, id, slot), Buffered(u.buffer, id, slot))
  }

  /** Whether a note counts in a slot. */
  predicate CountsIn(e: Event, id: int, slot: Slot) {
    e.Note? && e.id == id && id != 0 && e.class_ != "" && Slot(DayOf(e.at), e.class_) == slot
  }

  lemma NoteCounts(buffer: map<int, Use>, e: Event, id: int, slot: Slot)
    requires e.Note?
    ensures Buffered(Noted(buffer, e), id, slot)
         == if CountsIn(e, id, slot) then OneMore(Buffered(buffer, id, slot), e.refused) else Buffered(buffer, id, slot)
  {
  }

  lemma NoteMoves(buffer: map<int, Use>, e: Event, id: int)
    requires e.Note?
    ensures BufferedAt(Noted(buffer, e), id)
         == if e.id == id && id != 0 then Max(BufferedAt(buffer, id), e.at) else BufferedAt(buffer, id)
  {
  }

  /** What a credential's slot holds after a flush got through some statements. */
  lemma SlotAfter(u: Usage, done: set<Statement>, id: int, slot: Slot)
    requires id in u.lastUse
    ensures Total(AfterStatements(u, done), id, slot)
         == if Count(Key(id, slot)) in done then Total(u, id, slot) else Plus(Stored(u.daily, id, slot), ZERO)
  {
    var keys := Written(u.lastUse.Keys, done);
    assert Key(id, slot) in keys <==> Count(Key(id, slot)) in done;
    MergedHolds(u.daily, u.buffer, keys, id, slot);
    hide Merged;
    hide Written;
    assert Buffered(map[], id, slot) == ZERO;
  }

  lemma FlushConserves(u: Usage, id: int, slot: Slot)
    requires id in u.lastUse
    ensures Total(Flushed(u), id, slot) == Total(u, id, slot)
  {
    hide AfterStatements;
    hide Statements;
    StatementsAre(u.buffer);
    SlotAfter(u, Statements(u.buffer), id, slot);
  }

  lemma FlushMoves(u: Usage, id: int)
    requires id in u.lastUse
    ensures id in Flushed(u).lastUse && BufferedAt(Flushed(u).buffer, id) == 0
    ensures StoredAt(Flushed(u).lastUse, id) == Max(StoredAt(u.lastUse, id), BufferedAt(u.buffer, id))
  {
    hide Statements;
    StatementsAre(u.buffer);
    assert Touch(id) in Statements(u.buffer) <==> IsStatement(u.buffer, Touch(id));
  }

  /**
   * Over any run of notes and successful flushes, what is stored and what is buffered add up to
   * what was noted, for every existing credential, day and class.
   */
  lemma {:induction false} NotesAreConserved(u: Usage, events: seq<Event>, id: int, slot: Slot)
    requires id in u.lastUse
    ensures id in After(u, events).lastUse
    ensures Total(After(u, events), id, slot) == Plus(Total(u, id, slot), NotesOf(events, id, slot))
  {
    hide Flushed;
    hide Noted;
    hide Buffered;
    hide Stored;
    if events != [] {
      var before, e := After(u, events[..|events| - 1]), events[|events| - 1];
      NotesAreConserved(u, events[..|events| - 1], id, slot);
      if e.Flush? {
        FlushConserves(before, id, slot);
        FlushMoves(before, id);
      } else {
        NoteCounts(before.buffer, e, id, slot);
      }
    }
  }

  /** And the later of the stored and the buffered time is the latest time noted. */
  lemma {:induction false} LatestIsKept(u: Usage, events: seq<Event>, id: int)
    requires id in u.lastUse
    ensures id in After(u, events).lastUse
    ensures Max(StoredAt(After(u, events).lastUse, id), BufferedAt(After(u, events).buffer, id))
         == Max(Max(StoredAt(u.lastUse, id), BufferedAt(u.buffer, id)), LatestNote(events, id))
  {
    hide Flushed;
    hide Noted;
    hide BufferedAt;
    hide StoredAt;
    if events != [] {
      var before, e := After(u, events[..|events| - 1]), events[|events| - 1];
      LatestIsKept(u, events[..|events| - 1], id);
      if e.Flush? {
        FlushMoves(before, id);
      } else {
        NoteMoves(before.buffer, e, id);
      }
    }
  }

  /** After a flush last_used_at is the latest time noted, and notes since then do not move it. */
  lemma {:induction false} LastUsedIsLatestFlushed(u: Usage, events: seq<Event>, later: seq<Event>, id: int)
    requires id in u.lastUse && u.buffer == map[]
    requires forall e :: e in later ==> e.Note?
    ensures StoredAt(After(u, events + [Flush] + later).lastUse, id) == Max(StoredAt(u.lastUse, id), LatestNote(events, id))
  {
    if later == [] {
      assert (events + [Flush])[..|events|] == events;
      assert events + [Flush] + later == events + [Flush];
      LatestIsKept(u, events, id);
      FlushMoves(After(u, events), id);
    } else {
      var n := |later| - 1;
      assert (events + [Flush] + later)[..|events| + 1 + n] == events + [Flush] + later[..n];
      assert later[n] in later;
      LastUsedIsLatestFlushed(u, events, later[..n], id);
    }
  }

  // ---- A flush that fails -------------------------------------------------------------------------

  /** The time and address a credential shows once its buffered use is written, as a retry would write it. */
  function Shown(u: Usage, id: int): LastUse
    requires id in u.lastUse
  {
    if id in u.buffer && u.buffer[id].at != 0 then Touched(u.lastUse[id], u.buffer[id]) else u.lastUse[id]
  }

  /** Nothing noted about an existing credential is lost: its counts, its latest time and its address. */
  ghost predicate KeepsNoted(u: Usage, after: Usage) {
    && after.lastUse.Keys == u.lastUse.Keys
    && (forall id, slot :: id in u.lastUse ==> Total(after, id, slot) == Total(u, id, slot))
    && (forall id :: id in u.lastUse ==> Shown(after, id) == Shown(u, id))
  }

  /** Nothing of an existing credential waits to be written: no count, and no later time or other address. */
  ghost predicate NothingPending(u: Usage) {
    && (forall id, slot :: id in u.lastUse ==> Buffered(u.buffer, id, slot) == ZERO)
    && (forall id :: id in u.lastUse ==> Shown(u, id) == u.lastUse[id])
  }

  /** A buffer as notes leave it: no count in it is zero. */
  ghost predicate CountsAreReal(buffer: map<int, Use>) {
    forall id, slot :: id in buffer && slot in buffer[id].counts ==> buffer[id].counts[slot] != ZERO
  }

  /** The later of two times, when a credential was used before. */
  function LaterOf(last: Option<nat>, at: nat): nat { if last.Some? && last.value >= at then last.value else at }

  /**
   * A flush that goes through, in full. Each credential that still exists and was used reads the
   * later time, and the address noted last if one was; every count that was noted is added to its
   * row or starts one; nothing else changes, and nothing is written for a credential that is gone.
   */
  lemma FlushInFull(u: Usage)
    ensures var after := Flushed(u);
            && after.buffer == map[] && after.lastUse.Keys == u.lastUse.Keys
            && (forall id | id in u.lastUse ::
                  after.lastUse[id] ==
                  if id in u.buffer && u.buffer[id].at != 0
                  then LastUse(Some(LaterOf(u.lastUse[id].at, u.buffer[id].at)), if u.buffer[id].ip != "" then u.buffer[id].ip else u.lastUse[id].ip)
                  else u.lastUse[id])
            && (forall id, slot ::
                  Key(id, slot) in after.daily <==>
                  Key(id, slot) in u.daily || (id in u.lastUse && id in u.buffer && slot in u.buffer[id].counts))
            && forall id, slot | Key(id, slot) in after.daily ::
                 var was := if Key(id, slot) in u.daily then u.daily[Key(id, slot)] else UsageCount(0, 0);
                 after.daily[Key(id, slot)] ==
                 if id in u.lastUse && id in u.buffer && slot in u.buffer[id].counts
                 then UsageCount(was.requests + u.buffer[id].counts[slot].requests, was.refusals + u.buffer[id].counts[slot].refusals)
                 else was
  {
    StatementsAre(u.buffer);
    hide Statements;
    var done, written := Statements(u.buffer), Written(u.lastUse.Keys, Statements(u.buffer));
    forall id, slot
      ensures Key(id, slot) in written <==> id in u.lastUse && id in u.buffer && slot in u.buffer[id].counts
    {
      if id in u.lastUse && IsStatement(u.buffer, Count(Key(id, slot))) {
        assert Count(Key(id, slot)) in done && Count(Key(id, slot)).Count?;
      }
    }
    hide Written;
    forall id: int ensures Touch(id) in done <==> id in u.buffer && u.buffer[id].at != 0 {}
    hide IsStatement;
  }

  lemma NoteIsReal(buffer: map<int, Use>, e: Event)
    requires e.Note? && CountsAreReal(buffer)
    ensures CountsAreReal(Noted(buffer, e))
  {
  }

  lemma {:induction false} RunCountsAreReal(u: Usage, events: seq<Event>)
    requires CountsAreReal(u.buffer)
    ensures CountsAreReal(After(u, events).buffer)
  {
    hide Noted;
    if events != [] {
      RunCountsAreReal(u, events[..|events| - 1]);
      var e := events[|events| - 1];
      if e.Note? { NoteIsReal(After(u, events[..|events| - 1]).buffer, e); }
    }
  }

  /** What is kept includes the later of the stored and the buffered time. */
  lemma KeptTimeIsLatest(u: Usage, after: Usage, id: int)
    requires KeepsNoted(u, after) && id in u.lastUse
    ensures Max(StoredAt(after.lastUse, id), BufferedAt(after.buffer, id)) == Max(StoredAt(u.lastUse, id), BufferedAt(u.buffer, id))
  {
    assert Shown(after, id) == Shown(u, id);
  }

  /** A stop that comes to a given count last: to its credential after the others, and there to its day after the others. */
  ghost predicate LeavesLast(pending: map<int, Use>, done: set<Statement>, key: Key, current: int, day: nat) {
    && Count(key) !in done
    && ((forall x :: x in done ==> IdOf(x) != key.id)
        || (current == key.id && OtherCredentialsDone(pending, done, key)
            && ((forall x :: Count(x) in done && x.id == key.id ==> x.slot.day != key.slot.day)
                || (day == key.slot.day && OtherDaysDone(pending, done, key)))))
  }

  ghost predicate OtherCredentialsDone(pending: map<int, Use>, done: set<Statement>, key: Key) {
    forall y :: IsStatement(pending, y) && IdOf(y) != key.id ==> y in done
  }

  ghost predicate OtherDaysDone(pending: map<int, Use>, done: set<Statement>, key: Key) {
    forall y :: IsStatement(pending, Count(y)) && y.id == key.id && y.slot.day != key.slot.day ==> Count(y) in done
  }

  lemma NotBegun(pending: map<int, Use>, key: Key)
    ensures StoppedAt(pending, {}, key.id, 0) && LeavesLast(pending, {}, key, key.id, 0)
  {
  }

  lemma {:induction false} StopBefore(pending: map<int, Use>, key: Key, k: nat) returns (done: set<Statement>, current: int, day: nat)
    requires IsStatement(pending, Count(key)) && k < Needed(pending)
    ensures StoppedAt(pending, done, current, day) && |done| == k && LeavesLast(pending, done, key, current, day)
  {
    if k == 0 {
      NotBegun(pending, key);
      return {}, key.id, 0;
    }
    hide *;
    done, current, day := StopBefore(pending, key, k - 1);
    var next, id, on := NextStatement(pending, key, done, current, day);
    done, current, day := done + {next}, id, on;
  }

  lemma NextStatement(pending: map<int, Use>, key: Key, done: set<Statement>, current: int, day: nat)
    returns (next: Statement, id: int, on: nat)
    requires IsStatement(pending, Count(key)) && StoppedAt(pending, done, current, day)
    requires LeavesLast(pending, done, key, current, day) && |done| + 1 < Needed(pending)
    ensures next !in done && StoppedAt(pending, done + {next}, id, on) && LeavesLast(pending, done + {next}, key, id, on)
  {
    hide Statements;
    hide IsStatement;
    hide DaysWhole;
    hide OtherDaysDone;
    if y :| IsStatement(pending, y) && y !in done && IdOf(y) == current != key.id {
      id := current;
      next, on := NextInCredential(pending, done, current, day, y);
    } else if y :| IsStatement(pending, y) && y !in done && IdOf(y) != key.id {
      id := IdOf(y);
      next, on := NextCredential(pending, done, current, day, y);
    } else {
      SomethingElse(pending, key, done);
      var y :| IsStatement(pending, y) && y !in done && y != Count(key);
      id := key.id;
      next, on := NextAtLast(pending, done, key, current, day, y);
    }
  }

  lemma NextInCredential(pending: map<int, Use>, done: set<Statement>, current: int, day: nat, y: Statement)
    returns (next: Statement, on: nat)
    requires StoppedAt(pending, done, current, day) && IsStatement(pending, y) && y !in done && IdOf(y) == current
    ensures next !in done && IdOf(next) == current && StoppedAt(pending, done + {next}, current, on)
  {
    hide IsStatement;
    if IsStatement(pending, Touch(current)) && Touch(current) !in done {
      next, on := Touch(current), day;
    } else if x :| IsStatement(pending, Count(x)) && Count(x) !in done && x.id == current && x.slot.day == day {
      next, on := Count(x), day;
    } else {
      next, on := y, y.key.slot.day;
    }
  }

  lemma NextCredential(pending: map<int, Use>, done: set<Statement>, current: int, day: nat, y: Statement)
    returns (next: Statement, on: nat)
    requires StoppedAt(pending, done, current, day) && IsStatement(pending, y) && y !in done
    requires forall x, z :: x in done && IsStatement(pending, z) && IdOf(x) == IdOf(z) ==> z in done
    ensures next !in done && IdOf(next) == IdOf(y) && StoppedAt(pending, done + {next}, IdOf(y), on)
  {
    hide IsStatement;
    on := if y.Count? then y.key.slot.day else 0;
    next := if IsStatement(pending, Touch(IdOf(y))) then Touch(IdOf(y)) else y;
  }

  lemma NextAtLast(pending: map<int, Use>, done: set<Statement>, key: Key, current: int, day: nat, y: Statement)
    returns (next: Statement, on: nat)
    requires IsStatement(pending, Count(key)) && StoppedAt(pending, done, current, day) && LeavesLast(pending, done, key, current, day)
    requires OtherCredentialsDone(pending, done, key) && IsStatement(pending, y) && y !in done && y != Count(key)
    ensures next !in done && StoppedAt(pending, done + {next}, key.id, on) && LeavesLast(pending, done + {next}, key, key.id, on)
  {
    hide IsStatement;
    if IsStatement(pending, Touch(key.id)) && Touch(key.id) !in done {
      next, on := Touch(key.id), day;
    } else if x :| IsStatement(pending, Count(x)) && Count(x) !in done && x.id == key.id && x.slot.day == day != key.slot.day {
      next, on := Count(x), day;
    } else if x :| IsStatement(pending, Count(x)) && Count(x) !in done && x.id == key.id && x.slot.day != key.slot.day {
      next, on := Count(x), x.slot.day;
    } else {
      next, on := y, key.slot.day;
    }
  }

  lemma SomethingElse(pending: map<int, Use>, key: Key, done: set<Statement>)
    requires IsStatement(pending, Count(key)) && Count(key) !in done && |done| + 1 < Needed(pending)
    requires forall x :: x in done ==> IsStatement(pending, x)
    ensures exists y :: IsStatement(pending, y) && y !in done && y != Count(key)
  {
    StatementsAre(pending);
    hide Statements;
    var all, some := Statements(pending), done + {Count(key)};
    assert some <= all && |some| == |done| + 1;
    assert |all - some| == |all| - |some|;
    var y :| y in all - some;
    assert IsStatement(pending, y);
  }

  /** A stop after any number of statements. */
  lemma {:induction false} AnyStop(pending: map<int, Use>, k: nat) returns (done: set<Statement>, current: int, day: nat)
    requires k <= Needed(pending)
    ensures StoppedAt(pending, done, current, day) && |done| == k
  {
    if k == 0 {
      NothingDone(pending);
      return {}, 0, 0;
    }
    hide *;
    done, current, day := AnyStop(pending, k - 1);
    var next;
    next, current, day := NextOfAny(pending, done, current, day);
    done := done + {next};
  }

  lemma NothingDone(pending: map<int, Use>)
    ensures StoppedAt(pending, {}, 0, 0)
  {
  }

  lemma NextOfAny(pending: map<int, Use>, done: set<Statement>, current: int, day: nat) returns (next: Statement, id: int, on: nat)
    requires StoppedAt(pending, done, current, day) && |done| < Needed(pending)
    ensures next !in done && StoppedAt(pending, done + {next}, id, on)
  {
    Unfinished(pending, done);
    hide IsStatement;
    hide Needed;
    hide DaysWhole;
    if y :| IsStatement(pending, y) && y !in done && IdOf(y) == current {
      id := current;
      next, on := NextInCredential(pending, done, current, day, y);
    } else {
      var y :| IsStatement(pending, y) && y !in done;
      id := IdOf(y);
      next, on := NextCredential(pending, done, current, day, y);
    }
  }

  lemma Unfinished(pending: map<int, Use>, done: set<Statement>)
    requires |done| < Needed(pending) && forall x :: x in done ==> IsStatement(pending, x)
    ensures exists y :: IsStatement(pending, y) && y !in done
  {
    StatementsAre(pending);
    hide Statements;
    hide IsStatement;
    var all := Statements(pending);
    assert done <= all && |all - done| == |all| - |done|;
    var y :| y in all - done;
    assert IsStatement(pending, y);
  }

  /** A credential with a time and no count: taken last, its time is the last statement of all. */
  lemma StopBeforeTime(pending: map<int, Use>, id: int, k: nat) returns (done: set<Statement>)
    requires id in pending && pending[id].at != 0 && pending[id].counts == map[] && k < Needed(pending)
    ensures Stopped(pending, done) && |done| == k && Touch(id) !in done
  {
    var others := pending - {id};
    OneStatementLess(pending, id);
    hide Needed;
    var current, day;
    done, current, day := AnyStop(others, k);
    OthersStop(pending, id, done, current, day);
    hide StoppedAt;
  }

  lemma OthersAre(pending: map<int, Use>, id: int)
    ensures forall x :: IsStatement(pending - {id}, x) <==> IsStatement(pending, x) && IdOf(x) != id
  {
  }

  lemma OneStatementLess(pending: map<int, Use>, id: int)
    requires id in pending && pending[id].at != 0 && pending[id].counts == map[]
    ensures Needed(pending) == Needed(pending - {id}) + 1
  {
    StatementsAre(pending);
    StatementsAre(pending - {id});
    OthersAre(pending, id);
    hide Statements;
    assert forall x :: IsStatement(pending, x) && IdOf(x) == id ==> x == Touch(id);
    assert IsStatement(pending, Touch(id));
    hide IsStatement;
    assert Statements(pending) == Statements(pending - {id}) + {Touch(id)};
  }

  lemma OthersStop(pending: map<int, Use>, id: int, done: set<Statement>, current: int, day: nat)
    requires StoppedAt(pending - {id}, done, current, day)
    ensures StoppedAt(pending, done, current, day) && Touch(id) !in done
  {
    OthersAre(pending, id);
    hide IsStatement;
    forall x, y | Count(x) in done && IsStatement(pending, Count(y)) && x.id == y.id && x.slot.day == y.slot.day != day
      ensures Count(y) in done
    {
      assert IsStatement(pending - {id}, Count(x)) && IsStatement(pending - {id}, Count(y));
    }
  }

  /**
   * Over a database that takes so many statements, every order of writing keeps everything
   * noted about every existing credential exactly when there are enough statements or nothing
   * of an existing credential was waiting. The comment promises that a flush that fails is
   * retried: what this says is that otherwise something is lost for good.
   */
  lemma FlushKeepsNotedExactlyWhen(u: Usage, statements: nat)
    requires CountsAreReal(u.buffer)
    ensures (forall done :: Stopped(u.buffer, done) && |done| == Min(statements, Needed(u.buffer)) ==>
                              KeepsNoted(u, AfterStatements(u, done)))
       <==> statements >= Needed(u.buffer) || NothingPending(u)
  {
    hide *;
    if statements >= Needed(u.buffer) || NothingPending(u) {
      forall done | Stopped(u.buffer, done) && |done| == Min(statements, Needed(u.buffer))
        ensures KeepsNoted(u, AfterStatements(u, done))
      {
        StopKeepsNoted(u, done, statements);
      }
    } else {
      var done := LosingStop(u, statements);
      assert !KeepsNoted(u, AfterStatements(u, done));
    }
  }

  /** In every run of notes and flushes that starts with an empty buffer. */
  lemma RunFlushKeepsNotedExactlyWhen(start: Usage, events: seq<Event>, statements: nat)
    requires start.buffer == map[]
    ensures var u := After(start, events);
            (forall done :: Stopped(u.buffer, done) && |done| == Min(statements, Needed(u.buffer)) ==>
                              KeepsNoted(u, AfterStatements(u, done)))
            <==> statements >= Needed(u.buffer) || NothingPending(u)
  {
    RunCountsAreReal(start, events);
    hide *;
    FlushKeepsNotedExactlyWhen(After(start, events), statements);
  }

  lemma LosingStop(u: Usage, statements: nat) returns (done: set<Statement>)
    requires CountsAreReal(u.buffer) && statements < Needed(u.buffer) && !NothingPending(u)
    ensures Stopped(u.buffer, done) && |done| == Min(statements, Needed(u.buffer))
    ensures !KeepsNoted(u, AfterStatements(u, done))
  {
    hide AfterStatements;
    hide Needed;
    hide Total;
    hide Stopped;
    if id, slot :| id in u.lastUse && Buffered(u.buffer, id, slot) != ZERO {
      done := StopLosesCount(u, statements, id, slot);
    } else {
      var id :| id in u.lastUse && Shown(u, id) != u.lastUse[id];
      NoCountsWait(u.buffer, id);
      done := StopBeforeTime(u.buffer, id, statements);
      StoppedIsPending(u.buffer, done);
      ShownAfter(u, done, id);
    }
  }

  lemma NoCountsWait(buffer: map<int, Use>, id: int)
    requires CountsAreReal(buffer) && id in buffer && forall slot :: Buffered(buffer, id, slot) == ZERO
    ensures buffer[id].counts == map[]
  {
    forall slot ensures slot !in buffer[id].counts {
      assert Buffered(buffer, id, slot) == ZERO;
    }
  }

  lemma StopLosesCount(u: Usage, statements: nat, id: int, slot: Slot) returns (done: set<Statement>)
    requires statements < Needed(u.buffer) && id in u.lastUse && Buffered(u.buffer, id, slot) != ZERO
    ensures Stopped(u.buffer, done) && |done| == statements
    ensures Total(AfterStatements(u, done), id, slot) != Total(u, id, slot)
  {
    hide AfterStatements;
    hide Needed;
    hide Total;
    hide Plus;
    assert IsStatement(u.buffer, Count(Key(id, slot)));
    hide Buffered;
    hide IsStatement;
    var current, day;
    done, current, day := StopBefore(u.buffer, Key(id, slot), statements);
    hide StoppedAt;
    SlotAfter(u, done, id, slot);
    LostUnlessWritten(Stored(u.daily, id, slot), Buffered(u.buffer, id, slot));
    TotalIs(u, id, slot);
  }

  lemma TotalIs(u: Usage, id: int, slot: Slot)
    ensures Total(u, id, slot) == Plus(Stored(u.daily, id, slot), Buffered(u.buffer, id, slot))
  {
  }

  /** What a credential shows after a flush got through some statements. */
  lemma ShownAfter(u: Usage, done: set<Statement>, id: int)
    requires id in u.lastUse && forall x :: x in done ==> IsStatement(u.buffer, x)
    ensures AfterStatements(u, done).lastUse.Keys == u.lastUse.Keys
    ensures Shown(AfterStatements(u, done), id) == if Touch(id) in done then Shown(u, id) else u.lastUse[id]
  {
    hide Merged;
    hide Written;
    hide Touched;
    assert Touch(id) in done ==> IsStatement(u.buffer, Touch(id));
  }

  lemma StopKeepsNoted(u: Usage, done: set<Statement>, statements: nat)
    requires Stopped(u.buffer, done) && |done| == Min(statements, Needed(u.buffer))
    requires statements >= Needed(u.buffer) || NothingPending(u)
    ensures KeepsNoted(u, AfterStatements(u, done))
  {
    hide AfterStatements;
    hide Statements;
    hide Shown;
    StatementsAre(u.buffer);
    if statements >= Needed(u.buffer) {
      if x :| x in Statements(u.buffer) && x !in done {
        FewerStatements(done, Statements(u.buffer), x);
        assert false;
      }
      assert done == Statements(u.buffer);
    }
    forall id, slot | id in u.lastUse ensures Total(AfterStatements(u, done), id, slot) == Total(u, id, slot) {
      SlotAfter(u, done, id, slot);
    }
    KeysStay(u, done);
    forall id | id in u.lastUse ensures Shown(AfterStatements(u, done), id) == Shown(u, id) {
      ShownAfter(u, done, id);
      if Touch(id) !in done { UntouchedShows(u, id); }
    }
  }

  lemma KeysStay(u: Usage, done: set<Statement>)
    ensures AfterStatements(u, done).lastUse.Keys == u.lastUse.Keys
  {
    hide Merged;
    hide Written;
  }

  lemma StoppedIsPending(pending: map<int, Use>, done: set<Statement>)
    requires Stopped(pending, done)
    ensures forall x :: x in done ==> IsStatement(pending, x)
  {
  }

  lemma UntouchedShows(u: Usage, id: int)
    requires id in u.lastUse
    ensures Shown(u, id) == u.lastUse[id] || IsStatement(u.buffer, Touch(id))
  {
  }

  const ONE_REQUEST := map[Slot(0, "read") := UsageCount(1, 0)]

  /** One credential and one request noted. */
  function OneNoted(): Usage { Usage(map[5 := Use(60, "", ONE_REQUEST)], map[5 := LastUse(None, "")], map[]) }

  lemma OneNotedStops()
    ensures Stopped(OneNoted().buffer, {Touch(5)}) && |{Touch(5)}| < Needed(OneNoted().buffer)
  {
    var buffer, done := OneNoted().buffer, {Touch(5)};
    assert Slot(0, "read") in buffer[5].counts;
    assert StoppedAt(buffer, done, 5, 0);
    StatementsAre(buffer);
    FewerStatements(done, Statements(buffer), Count(Key(5, Slot(0, "read"))));
  }

  lemma TouchOnlyLeavesNothing(u: Usage, id: int, slot: Slot)
    requires id in u.lastUse && u.daily == map[]
    ensures Total(AfterStatements(u, {Touch(id)}), id, slot) == ZERO
  {
    SlotAfter(u, {Touch(id)}, id, slot);
    hide AfterStatements;
    hide Total;
  }

  lemma LaterFlushesBringNothingBack(u: Usage, done: set<Statement>, id: int, slot: Slot)
    requires id in u.lastUse
    ensures Total(Flushed(AfterStatements(u, done)), id, slot) == Total(AfterStatements(u, done), id, slot)
  {
    var after := AfterStatements(u, done);
    assert id in after.lastUse;
    hide AfterStatements;
    hide Total;
    FlushConserves(after, id, slot);
  }

  lemma OneNotedIs()
    ensures 5 in OneNoted().lastUse && OneNoted().daily == map[]
    ensures Buffered(OneNoted().buffer, 5, Slot(0, "read")) == UsageCount(1, 0)
    ensures Stored(OneNoted().daily, 5, Slot(0, "read")) == ZERO
  {
    hide Plus;
  }

  lemma NothingPlus(count: UsageCount)
    ensures Plus(ZERO, count) == count
  {
  }

  /** The database fails after the first of the two statements, and no later flush brings the request back. */
  lemma FailedFlushLosesARequest()
    ensures var u, done := OneNoted(), {Touch(5)};
            && Stopped(u.buffer, done) && |done| == 1 < Needed(u.buffer)
            && Total(u, 5, Slot(0, "read")) == UsageCount(1, 0)
            && Total(AfterStatements(u, done), 5, Slot(0, "read")) == ZERO
            && Total(Flushed(AfterStatements(u, done)), 5, Slot(0, "read")) == ZERO
  {
    OneNotedStops();
    OneNotedIs();
    hide *;
    TotalIs(OneNoted(), 5, Slot(0, "read"));
    NothingPlus(UsageCount(1, 0));
    TouchOnlyLeavesNothing(OneNoted(), 5, Slot(0, "read"));
    LaterFlushesBringNothingBack(OneNoted(), {Touch(5)}, 5, Slot(0, "read"));
  }

  /**
   * A note of a request with no class leaves a time and no count. The database takes no
   * statement: the time is lost for good, although no count was waiting.
   */
  lemma FailedFlushLosesATime()
    ensures var start := Usage(map[], map[5 := LastUse(None, "")], map[]);
            var u := After(start, [Note(5, "", "", 60, false)]);
            && u.buffer == map[5 := Use(60, "", map[])]
            && Stopped(u.buffer, {}) && Needed(u.buffer) == 1
            && Shown(u, 5) == LastUse(Some(60), "")
            && AfterStatements(u, {}) == start && Shown(start, 5) == LastUse(None, "")
  {
    var start := Usage(map[], map[5 := LastUse(None, "")], map[]);
    OneEvent(start, Note(5, "", "", 60, false));
    TimeIsNoted();
    TimeStops();
    NothingWritten(start, map[5 := Use(60, "", map[])]);
    hide Stopped;
    hide Needed;
    hide Noted;
    hide AfterStatements;
  }

  lemma TimeIsNoted()
    ensures Noted(map[], Note(5, "", "", 60, false)) == map[5 := Use(60, "", map[])]
  {
  }

  lemma TimeStops()
    ensures Stopped(map[5 := Use(60, "", map[])], {}) && Needed(map[5 := Use(60, "", map[])]) == 1
  {
    var pending := map[5 := Use(60, "", map[])];
    NothingDone(pending);
    assert Statements(pending) == {Touch(5)};
  }

  lemma NothingWritten(u: Usage, pending: map<int, Use>)
    ensures AfterStatements(u.(buffer := pending), {}) == u.(buffer := map[])
  {
    assert Written(u.lastUse.Keys, {}) == {};
  }

  lemma OneEvent(u: Usage, e: Event)
    ensures After(u, [e]) == Happened(u, e)
  {
    assert [e][..0] == [];
    assert After(u, []) == u;
  }

  lemma MergedHolds(daily: map<Key, UsageCount>, pending: map<int, Use>, written: set<Key>, id: int, slot: Slot)
    ensures Stored(Merged(daily, pending, written), id, slot)
         == if Key(id, slot) in written then Plus(Stored(daily, id, slot), Buffered(pending, id, slot)) else Stored(daily, id, slot)
  {
  }

  lemma LostUnlessWritten(stored: UsageCount, pending: UsageCount)
    ensures Plus(stored, ZERO) == Plus(stored, pending) <==> pending == ZERO
  {
  }
}
