/**
 * `POST /audit`: refuse a request for the same `(email, producturl)` pair made
 * within the last 24 hours, otherwise store the six fields verbatim with the
 * current time and schedule the notification emails.
 */
module Audit {
  import opened Common
  import opened Store

  const TooSoon: string :=
    "An audit request for this product was received recently. Please wait before requesting again."
  const Received: string := "Audit request received"

  /** `now - timedelta(hours=24)`; below the earliest `datetime` the
      subtraction raises instead (see `Submit`). */
  function Cutoff(now: Time): (c: int)
    ensures now - c == MicrosPerDay
    ensures c < 0 <==> now < MicrosPerDay
  {
    now - MicrosPerDay
  }

  /** Whether this stored audit matches the query `{"email": email,
      "producturl": url, "created_at": {"$gte": cutoff}}`. The cutoff travels
      as a BSON date, floored to the millisecond, so the window is counted in
      whole milliseconds. A document without `created_at` never matches a range
      condition. */
  predicate Blocks(d: Doc<Audit>, email: string, url: string, now: Time)
    ensures Blocks(d, email, url, now) <==>
      && d.body.email == email && d.body.producturl == url && d.createdAt.Some?
      && (now - MicrosPerDay) / MicrosPerMilli <= d.createdAt.value / MicrosPerMilli
  {
    BsonCompare(Cutoff(now), if d.createdAt.Some? then d.createdAt.value else 0);
    && d.body.email == email
    && d.body.producturl == url
    && d.createdAt.Some?
    && d.createdAt.value >= BsonTime(Cutoff(now))
  }

  /** `db.audits.find_one(...)` is not empty. */
  predicate RecentDuplicate(audits: seq<Doc<Audit>>, email: string, url: string, now: Time) {
    exists i :: 0 <= i < |audits| && Blocks(audits[i], email, url, now)
  }

  /** The handler. An insert failure is not caught, so FastAPI answers 500. */
  method Submit(db: Database, a: Audit, now: Time, operator: string,
                insertFails: bool, scheduleFails: bool)
    returns (r: Reply<Ack>, jobs: seq<Job>)
    requires db.Valid()
    modifies db`audits, db`nextId
    ensures db.Valid()
    ensures
      if now < MicrosPerDay then
        r == Err(500, InternalError) && db.audits == old(db.audits) && jobs == []
      else if RecentDuplicate(old(db.audits), a.email, a.producturl, now) then
        r == Err(409, TooSoon) && db.audits == old(db.audits) && jobs == []
      else if insertFails then
        r == Err(500, InternalError) && db.audits == old(db.audits) && jobs == []
      else
        && r == Ok(200, Ack(Received, IdString(old(db.nextId))))
        && db.audits == old(db.audits) + [Doc(old(db.nextId), Some(BsonTime(now)), a)]
        && jobs == Scheduled(NotifyBoth(a.email, operator), scheduleFails)
  {
    if now < MicrosPerDay {
      // the cutoff would fall before 0001-01-01: `OverflowError`, uncaught
      return Err(500, InternalError), [];
    }
    if RecentDuplicate(db.audits, a.email, a.producturl, now) {
      return Err(409, TooSoon), [];
    }
    var outcome := db.InsertAudit(a, now, insertFails);
    if outcome.Inserted? {
      jobs := Scheduled(NotifyBoth(a.email, operator), scheduleFails);
      r := Ok(200, Ack(Received, IdString(outcome.id)));
    } else {
      r, jobs := Err(500, InternalError), [];
    }
  }

  /** The window is closed at its old end, to the millisecond: a matching
      audit stored in the millisecond that began 24 hours ago still blocks, and
      one stored any earlier does not. When 24 hours ago is not a whole
      millisecond, an audit up to 999 microseconds older than 24 hours still
      blocks. */
  lemma WindowBoundary(a: Audit, id: Id, now: Time)
    requires now >= MicrosPerDay + MicrosPerMilli
    ensures RecentDuplicate([Doc(id, Some(BsonTime(now - MicrosPerDay)), a)], a.email, a.producturl, now)
    ensures !RecentDuplicate([Doc(id, Some(BsonTime(now - MicrosPerDay) - 1), a)], a.email, a.producturl, now)
    ensures (now - MicrosPerDay) % MicrosPerMilli != 0 ==>
      RecentDuplicate([Doc(id, Some(now - MicrosPerDay - 1), a)], a.email, a.producturl, now)
  {
    var stored := [Doc(id, Some(BsonTime(now - MicrosPerDay)), a)];
    assert Blocks(stored[0], a.email, a.producturl, now);
    if (now - MicrosPerDay) % MicrosPerMilli != 0 {
      var older := [Doc(id, Some(now - MicrosPerDay - 1), a)];
      assert Blocks(older[0], a.email, a.producturl, now);
    }
  }

  /** Only the pair blocks: a different product URL, or a different email, is
      never a duplicate, whatever is stored; comparison is exact, with no
      normalisation. */
  lemma OnlyTheSamePairBlocks(audits: seq<Doc<Audit>>, email: string, url: string, now: Time)
    requires forall i :: 0 <= i < |audits| ==> audits[i].body.email != email || audits[i].body.producturl != url
    ensures !RecentDuplicate(audits, email, url, now)
  {
  }

  /** A duplicate stays a duplicate for earlier instants and expires for later
      ones: if nothing blocks at `t`, nothing blocks at any later instant. */
  lemma WindowMonotone(audits: seq<Doc<Audit>>, email: string, url: string, t: Time, later: Time)
    requires t <= later
    ensures RecentDuplicate(audits, email, url, later) ==> RecentDuplicate(audits, email, url, t)
  {
    if RecentDuplicate(audits, email, url, later) {
      var i :| 0 <= i < |audits| && Blocks(audits[i], email, url, later);
      assert Blocks(audits[i], email, url, t);
    }
  }

  /** Two requests for the same pair, the first stored at `first`: the second
      is refused when, counted in whole milliseconds, it comes within 24 hours
      of the first, and accepted when it comes later, given that nothing older
      blocks it. */
  lemma SecondRequest(audits: seq<Doc<Audit>>, a: Audit, id: Id, first: Time, second: Time)
    requires !RecentDuplicate(audits, a.email, a.producturl, second)
    ensures var after := audits + [Doc(id, Some(BsonTime(first)), a)];
      RecentDuplicate(after, a.email, a.producturl, second) <==> BsonTime(second) - BsonTime(first) <= MicrosPerDay
  {
    var after := audits + [Doc(id, Some(BsonTime(first)), a)];
    BsonDayEarlier(second);
    if BsonTime(second) - BsonTime(first) <= MicrosPerDay {
      assert Blocks(after[|audits|], a.email, a.producturl, second);
    } else {
      forall i | 0 <= i < |after| ensures !Blocks(after[i], a.email, a.producturl, second) {
        if i < |audits| { assert after[i] == audits[i]; }
      }
    }
  }
}
