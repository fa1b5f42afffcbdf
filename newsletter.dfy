/**
 * `POST /newsletter`: normalise the email, refuse a second subscription for
 * it, otherwise store one subscription stamped with the current time and
 * schedule the two notification emails.
 */
module Newsletter {
  import opened Common
  import opened Store

  const AlreadySubscribed: string := "You are already subscribed"
  const SaveFailed: string := "Failed to save subscription"

  /** `email.strip().lower()`. */
  function Normalize(email: string): (n: string)
    ensures |n| <= |email|
    ensures forall i :: 0 <= i < |n| ==> !IsUpper(n[i])
  {
    Lower(Strip(email))
  }

  lemma {:induction false} LowerKeepsSpace(s: string)
    ensures forall i :: 0 <= i < |s| ==> (IsSpace(Lower(s)[i]) <==> IsSpace(s[i]))
  {
  }

  lemma {:induction false} StripStartOfStripped(s: string)
    requires s == [] || !IsSpace(s[0])
    ensures StripStart(s) == s
  {
  }

  lemma {:induction false} StripEndOfStripped(s: string)
    requires s == [] || !IsSpace(s[|s| - 1])
    ensures StripEnd(s) == s
  {
  }

  /** A normalised email starts and ends with a non-space character, and holds
      no ASCII capital. */
  lemma NormalizeShape(email: string)
    ensures var n := Normalize(email);
      (n == [] || (!IsSpace(n[0]) && !IsSpace(n[|n| - 1])))
      && forall i :: 0 <= i < |n| ==> !IsUpper(n[i])
  {
    var s := Strip(email);
    var n := Lower(s);
    if s != [] {
      assert n[0] == LowerChar(s[0]) && n[|n| - 1] == LowerChar(s[|s| - 1]);
    }
  }

  /** Normalising twice is normalising once. */
  lemma NormalizeIdempotent(email: string)
    ensures Normalize(Normalize(email)) == Normalize(email)
  {
    var n := Normalize(email);
    NormalizeShape(email);
    StripStartOfStripped(n);
    StripEndOfStripped(n);
    assert Strip(n) == n;
    LowerIdempotent(Strip(email));
  }

  /** `db.newsletters.find_one({"email": e})` is not empty. */
  predicate Subscribed(newsletters: seq<Doc<Newsletter>>, e: string) {
    KeyTaken(newsletters, NewsletterKey, e)
  }

  /** The handler. `insertFails` stands for a store error on insert; the
      reply does not depend on `scheduleFails`, which only decides whether the
      two notification jobs were scheduled. */
  method Subscribe(db: Database, email: string, now: Time, operator: string,
                   insertFails: bool, scheduleFails: bool)
    returns (r: Reply<Ack>, jobs: seq<Job>)
    requires db.Valid()
    modifies db`newsletters, db`nextId
    ensures db.Valid()
    ensures var e := Normalize(email);
      if Subscribed(old(db.newsletters), e) then
        r == Err(409, AlreadySubscribed) && db.newsletters == old(db.newsletters) && jobs == []
      else if insertFails then
        r == Err(500, SaveFailed) && db.newsletters == old(db.newsletters) && jobs == []
      else
        && r == Ok(201, Ack("Subscribed", IdString(old(db.nextId))))
        && db.newsletters == old(db.newsletters) + [Doc(old(db.nextId), Some(BsonTime(now)), Newsletter(e))]
        && jobs == Scheduled(NotifyBoth(e, operator), scheduleFails)
    ensures KeysUnique(old(db.newsletters), NewsletterKey) ==> KeysUnique(db.newsletters, NewsletterKey)
  {
    var e := Normalize(email);
    if Subscribed(db.newsletters, e) {
      return Err(409, AlreadySubscribed), [];
    }
    ghost var before := db.newsletters;
    var outcome := db.InsertNewsletter(Newsletter(e), now, insertFails);
    match outcome {
      case Inserted(id) =>
        if KeysUnique(before, NewsletterKey) {
          GuardedAppendKeepsKeysUnique(before, NewsletterKey, Doc(id, Some(BsonTime(now)), Newsletter(e)));
        }
        jobs := Scheduled(NotifyBoth(e, operator), scheduleFails);
        r := Ok(201, Ack("Subscribed", IdString(id)));
      case _ =>
        // every insert exception, a unique-index rejection included
        r, jobs := Err(500, SaveFailed), [];
    }
  }

  /** Two subscriptions that differ only in case or surrounding blanks are the
      same subscription: the second is refused. */
  lemma SpellingsCollide(newsletters: seq<Doc<Newsletter>>, id: Id, now: Time, a: string, b: string)
    requires Normalize(a) == Normalize(b)
    ensures Subscribed(newsletters + [Doc(id, Some(BsonTime(now)), Newsletter(Normalize(a)))], Normalize(b))
  {
    var after := newsletters + [Doc(id, Some(BsonTime(now)), Newsletter(Normalize(a)))];
    assert NewsletterKey(after[|newsletters|].body) == Normalize(b);
  }
}
