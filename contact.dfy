/**
 * `POST /contact`: every request is stored, with no duplicate check; a store
 * error becomes a 500, and the notification emails never affect the reply.
 */
module Contact {
  import opened Common
  import opened Store

  const SaveFailed: string := "Failed to save contact request"
  const Received: string := "Contact request received"

  /** The handler. */
  method Submit(db: Database, c: Contact, now: Time, operator: string,
                insertFails: bool, scheduleFails: bool)
    returns (r: Reply<Ack>, jobs: seq<Job>)
    requires db.Valid()
    modifies db`contacts, db`nextId
    ensures db.Valid()
    ensures
      if insertFails then
        r == Err(500, SaveFailed) && db.contacts == old(db.contacts) && jobs == []
      else
        && r == Ok(201, Ack(Received, IdString(old(db.nextId))))
        && db.contacts == old(db.contacts) + [Doc(old(db.nextId), Some(BsonTime(now)), c)]
        && jobs == Scheduled(NotifyBoth(c.email, operator), scheduleFails)
  {
    var outcome := db.InsertContact(c, now, insertFails);
    if outcome.Inserted? {
      jobs := Scheduled(NotifyBoth(c.email, operator), scheduleFails);
      r := Ok(201, Ack(Received, IdString(outcome.id)));
    } else {
      r, jobs := Err(500, SaveFailed), [];
    }
  }
}
