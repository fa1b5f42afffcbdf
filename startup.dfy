/**
 * The two startup hooks: declaring the unique indexes on meetings
 * `(email, date)` and on newsletters `email`, where a failure is only logged,
 * and seeding the configured admin account when none with that username
 * exists.
 */
module Startup {
  import opened Common
  import opened Store

  /** The role every seeded admin gets. */
  const AdminRole: string := "admin"


  /** `db["admins"].find_one({"username": username})` is not empty. */
  predicate AdminExists(admins: seq<Doc<Admin>>, username: string) {
    KeyTaken(admins, AdminName, username)
  }

  /** The admins after seeding, when the next id is `id`: unchanged if the
      username is taken, otherwise one admin more, with the hashed password,
      the role "admin" and no `created_at`. */
  function Seeded(admins: seq<Doc<Admin>>, username: string, password: string, id: Id): (after: seq<Doc<Admin>>)
    ensures AdminExists(admins, username) ==> after == admins
    ensures !AdminExists(admins, username) ==>
      after == admins + [Doc(id, None, Admin(username, Hash(password), AdminRole))]
  {
    if AdminExists(admins, username) then admins
    else admins + [Doc(id, None, Admin(username, Hash(password), AdminRole))]
  }

  /** After seeding, an admin with the configured username exists. */
  lemma SeededAdminExists(admins: seq<Doc<Admin>>, username: string, password: string, id: Id)
    ensures AdminExists(Seeded(admins, username, password, id), username)
  {
    if !AdminExists(admins, username) {
      var after := Seeded(admins, username, password, id);
      assert AdminName(after[|admins|].body) == username;
    }
  }

  /** Seeding again, even with another password or id, changes nothing: a
      restart never adds a second admin or replaces the stored password. */
  lemma SeedIdempotent(admins: seq<Doc<Admin>>, username: string, password: string, id: Id,
                       password': string, id': Id)
    ensures var once := Seeded(admins, username, password, id);
      Seeded(once, username, password', id') == once
  {
    SeededAdminExists(admins, username, password, id);
  }

  /** `seed_admin`. A store error in `insert_one` is not caught: it aborts
      the application's startup, reported here as `started == false`. */
  method SeedAdmin(db: Database, username: string, password: string, insertFails: bool)
    returns (started: bool)
    requires db.Valid()
    modifies db`admins, db`nextId
    ensures db.Valid()
    ensures started <==> AdminExists(old(db.admins), username) || !insertFails
    ensures started ==> db.admins == Seeded(old(db.admins), username, password, old(db.nextId))
    ensures !started ==> db.admins == old(db.admins) && db.nextId == old(db.nextId)
    ensures AdminExists(old(db.admins), username) ==> db.nextId == old(db.nextId)
  {
    started := true;
    if !AdminExists(db.admins, username) {
      var outcome := db.InsertAdmin(Admin(username, Hash(password), AdminRole), insertFails);
      started := outcome.Inserted?;
    }
  }

  /** Whether a unique index on the meeting pair could be built over the
      stored meetings: the store refuses to build one over duplicates. */
  predicate MeetingPairsDistinct(meetings: seq<Doc<Meeting>>) {
    forall i, j :: 0 <= i < j < |meetings| ==> MeetingKey(meetings[i].body) != MeetingKey(meetings[j].body)
  }

  predicate NewsletterEmailsDistinct(newsletters: seq<Doc<Newsletter>>) {
    forall i, j :: 0 <= i < j < |newsletters| ==>
      NewsletterKey(newsletters[i].body) != NewsletterKey(newsletters[j].body)
  }

  /** `create_indexes_on_startup`. Each `create_index` either succeeds, or is
      an existing index declared again, or fails (`meetingsFails`,
      `newslettersFails` stand for connection and server errors; building
      over duplicates fails too). A failure is logged and the next index and
      the rest of startup still run. */
  method CreateIndexes(db: Database, meetingsFails: bool, newslettersFails: bool)
    requires db.Valid()
    modifies db`meetingsIndexed, db`newslettersIndexed
    ensures db.Valid()
    ensures db.meetingsIndexed == (old(db.meetingsIndexed) || (!meetingsFails && MeetingPairsDistinct(db.meetings)))
    ensures db.newslettersIndexed ==
      (old(db.newslettersIndexed) || (!newslettersFails && NewsletterEmailsDistinct(db.newsletters)))
  {
    if !db.meetingsIndexed && !meetingsFails && MeetingPairsDistinct(db.meetings) {
      db.meetingsIndexed := true;
    }
    if !db.newslettersIndexed && !newslettersFails && NewsletterEmailsDistinct(db.newsletters) {
      db.newslettersIndexed := true;
    }
  }
}
