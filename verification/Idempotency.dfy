/**
 * Request keys (database/idempotency.go): claim, complete, release, sweep.
 *
 * BeginIdempotent is two statements, an insert and a read, and other callers run between them.
 * The table and the calls in flight are one state; each statement is one step. In runs where
 * every claim has its record for as long as it is held, a key has at most one holder and a
 * replay is a response to the same request. Both failures of that condition are shown to
 * matter: a claim that outlives its record, and a read that finds nothing, which the code
 * answers with Proceed although no record stands behind it.
 */
module Idempotency {
  import opened Options
  import JsonText

  const DEFAULT_TTL := 24 * 3600

  /** The unique index: company, credential and key. */
  datatype Key = Key(companyId: int, credentialId: int, text: string)

  /** A response body: JSON with the text its JSONB column reads back, or something else. */
  datatype Body = Json(text: string, stored: string) | Other(text: string)

  datatype State = InProgress | Completed(status: int, body: string)

  /** A row. `claim` is the call whose claim it records; it is not a column. */
  datatype Record = Record(fingerprint: string, state: State, expiresAt: int, claim: nat)

  datatype Outcome = Proceed | Replay(status: int, body: string) | Reuse | StillRunning

  function Lifetime(ttl: int): int { if ttl <= 0 then DEFAULT_TTL else ttl }

  function StoredBody(body: Body): string {
    match body
    case Json(_, stored) => stored
    case Other(_) => "{}"
  }

  // ---- The statements --------------------------------------------------------------------

  type Records = map<Key, Record>

  function Claimed(fingerprint: string, began: int, ttl: int, claim: nat): Record {
    Record(fingerprint, InProgress, began + Lifetime(ttl), claim)
  }

  /** INSERT ... ON CONFLICT DO NOTHING: the table with the claim, when the key was free. */
  function Insert(records: Records, key: Key, fingerprint: string, began: int, ttl: int, claim: nat): Option<Records> {
    if key in records then None else Some(records[key := Claimed(fingerprint, began, ttl, claim)])
  }

  /** The locked read and what follows from it. */
  function Read(records: Records, key: Key, fingerprint: string, began: int, ttl: int, claim: nat): (Records, Outcome) {
    if key !in records then (records, Proceed)
    else if records[key].expiresAt < began then (records[key := Claimed(fingerprint, began, ttl, claim)], Proceed)
    else if records[key].fingerprint != fingerprint then (records, Reuse)
    else match records[key].state
      case InProgress => (records, StillRunning)
      case Completed(status, body) => (records, Replay(status, body))
  }

  function ReleaseRow(records: Records, key: Key): Records {
    if key in records && records[key].state == InProgress then records - {key} else records
  }

  function CompleteRow(records: Records, key: Key, status: int, body: Body): Records {
    if status >= 500 then ReleaseRow(records, key)
    else if key in records && records[key].state == InProgress then
      records[key := records[key].(state := Completed(status, StoredBody(body)))]
    else records
  }

  /** PurgeExpiredIdempotencyRecords. */
  function Purge(records: Records, now: int): Records {
    map key | key in records && !(records[key].expiresAt < now) :: records[key]
  }

  predicate Running(records: Records, key: Key) { key in records && records[key].state == InProgress }

  /** Two tables hold the same under a key. */
  predicate SameUnder(key: Key, a: Records, b: Records) { (key in a <==> key in b) && (key in a ==> a[key] == b[key]) }

  // ---- The store -------------------------------------------------------------------------------

  /** BeginIdempotent with nothing in between. */
  function Begin(records: Records, key: Key, fingerprint: string, began: int, ttl: int, claim: nat): (Records, Outcome) {
    match Insert(records, key, fingerprint, began, ttl, claim)
    case Some(inserted) => (inserted, Proceed)
    case None => Read(records, key, fingerprint, began, ttl, claim)
  }

  class IdempotencyStore {
    var now: int
    var records: Records

    constructor (start: int)
      ensures records == map[] && now == start
    {
      now, records := start, map[];
    }

    method BeginIdempotent(key: Key, fingerprint: string, ttl: int, claim: nat) returns (outcome: Outcome)
      modifies `records
      ensures (records, outcome) == Begin(old(records), key, fingerprint, now, ttl, claim)
      ensures outcome == Proceed <==> key !in old(records) || old(records)[key].expiresAt < now
      ensures outcome == Proceed ==>
                records == old(records)[key := Record(fingerprint, InProgress, now + (if ttl <= 0 then 24 * 3600 else ttl), claim)]
      ensures outcome != Proceed ==> records == old(records)
      ensures outcome == Reuse <==>
                key in old(records) && old(records)[key].expiresAt >= now && old(records)[key].fingerprint != fingerprint
      ensures outcome == StillRunning <==>
                key in old(records) && old(records)[key].expiresAt >= now && old(records)[key].fingerprint == fingerprint
                && old(records)[key].state == InProgress
      ensures outcome.Replay? <==>
                key in old(records) && old(records)[key].expiresAt >= now && old(records)[key].fingerprint == fingerprint
                && old(records)[key].state != InProgress
      ensures outcome.Replay? ==> old(records)[key].state == Completed(outcome.status, outcome.body)
    {
      var seconds := ttl;
      if seconds <= 0 {
        seconds := DEFAULT_TTL;
      }
      if key !in records {
        records := records[key := Record(fingerprint, InProgress, now + seconds, claim)];
        return Proceed;
      }
      var found := records[key];
      if found.expiresAt < now {
        records := records[key := found.(fingerprint := fingerprint, state := InProgress, expiresAt := now + seconds, claim := claim)];
        return Proceed;
      }
      if found.fingerprint != fingerprint {
        return Reuse;
      }
      if !found.state.Completed? {
        return StillRunning;
      }
      return Replay(found.state.status, found.state.body);
    }

    /**
     * What the next claim of the key is told: a response below 500 is replayed to its own retry
     * and refused to another request until the record expires; after a server error it runs again.
     */
    method CompleteIdempotent(key: Key, status: int, body: Body)
      modifies `records
      ensures records == CompleteRow(old(records), key, status, body)
      ensures records ==
              if key !in old(records) || old(records)[key].state != InProgress then old(records)
              else if status >= 500 then old(records) - {key}
              else old(records)[key := old(records)[key].(state := Completed(status, if body.Json? then body.stored else "{}"))]
      ensures Running(old(records), key) && status >= 500 ==>
                forall fingerprint, began, ttl, claim :: Begin(records, key, fingerprint, began, ttl, claim).1 == Proceed
      ensures Running(old(records), key) && status < 500 ==>
                forall fingerprint, began, ttl, claim ::
                  Begin(records, key, fingerprint, began, ttl, claim).1
                  == if old(records)[key].expiresAt < began then Proceed
                     else if fingerprint != old(records)[key].fingerprint then Reuse
                     else Replay(status, if body.Json? then body.stored else "{}")
    {
      if status >= 500 {
        ReleaseIdempotent(key);
        return;
      }
      var stored := if body.Json? then body.stored else "{}";
      if key in records && records[key].state == InProgress {
        records := records[key := records[key].(state := Completed(status, stored))];
      }
    }

    method ReleaseIdempotent(key: Key)
      modifies `records
      ensures records == ReleaseRow(old(records), key)
      ensures records ==
              if key in old(records) && old(records)[key].state == InProgress then old(records) - {key} else old(records)
    {
      if key in records && records[key].state == InProgress {
        records := records - {key};
      }
    }

    /**
     * The sweep cannot be noticed: it removes exactly the expired records, and every claim that
     * begins from now on is answered, and leaves its key, as it would have without the sweep.
     */
    method PurgeExpired()
      modifies `records
      ensures records == Purge(old(records), now)
      ensures forall key :: key in records <==> key in old(records) && old(records)[key].expiresAt >= now
      ensures forall key :: key in records ==> records[key] == old(records)[key]
      ensures forall key, fingerprint, began, ttl, claim | began >= now ::
                && Begin(records, key, fingerprint, began, ttl, claim).1 == Begin(old(records), key, fingerprint, began, ttl, claim).1
                && SameUnder(key, Begin(records, key, fingerprint, began, ttl, claim).0,
                             Begin(old(records), key, fingerprint, began, ttl, claim).0)
    {
      records := map key | key in records && records[key].expiresAt >= now :: records[key];
    }
  }

  /** A JSON response: the text the handler wrote, and what the column reads back. */
  function Response(v: JsonText.Value): Body { Json(JsonText.Compact(v), JsonText.Jsonb(v)) }

  /**
   * The comment promises that a retry is sent the response byte for byte. A retry that is
   * replayed gets the bytes that were sent exactly when the response has no object with a
   * member and no list of two.
   */
  lemma ReplayIsByteForByteExactlyWhen(records: Records, key: Key, status: int, v: JsonText.Value, began: int, ttl: int, claim: nat)
    requires Running(records, key) && status < 500 && began <= records[key].expiresAt
    ensures Begin(CompleteRow(records, key, status, Response(v)), key, records[key].fingerprint, began, ttl, claim).1
            == Replay(status, Response(v).text)
       <==> JsonText.Tight(v)
  {
    JsonText.ReadsBackExactlyWhenTight(v);
    hide JsonText.Compact;
    hide JsonText.Jsonb;
    hide JsonText.Tight;
  }

  /** A response of one member is sent without a blank and replayed with one. */
  lemma ReplayHasABlank()
    ensures var v := JsonText.Object([JsonText.Member("\"id\"", JsonText.Scalar("7"))]);
            Response(v) == Json("{\"id\":7}", "{\"id\": 7}") && !JsonText.Tight(v)
  {
    var m := JsonText.Member("\"id\"", JsonText.Scalar("7"));
    assert JsonText.Pair(m, "") == "\"id\":7" && JsonText.Pair(m, " ") == "\"id\": 7";
    assert JsonText.Members([m], "") == "\"id\":7" && JsonText.Members([m], " ") == "\"id\": 7";
  }
}
