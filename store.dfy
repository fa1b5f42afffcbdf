/**
 * The document store the handlers share: one collection per form, each an
 * ordered sequence of documents with a store-assigned identifier, and the two
 * unique indexes that startup declares. Inserts are the only place a store
 * failure or a unique-index rejection can arise.
 */
module Store {
  import opened Common

  /** A store-native ObjectId, as the 96-bit number its 24 hex digits spell. */
  type Id = nat

  /** One stored document: its `_id`, its `created_at` (absent in documents
      that were not written by a form handler) and its form fields. */
  datatype Doc<R> = Doc(id: Id, createdAt: Option<Time>, body: R)

  datatype User = User(username: string, email: string, password: PasswordHash)
  datatype Admin = Admin(username: string, password: PasswordHash, role: string)
  datatype Meeting = Meeting(name: string, email: string, agenda: string, date: string)
  datatype Audit = Audit(firstname: string, lastname: string, email: string, brandname: string,
                         producturl: string, message: string)
  datatype Contact = Contact(firstname: string, email: string, subject: string, message: string)
  datatype Newsletter = Newsletter(email: string)
  datatype Package = Package(package: string, price: string, name: string, email: string,
                             company: string, url: string, businessType: string, notes: string)

  /** The `{"message": ..., "id": ...}` acknowledgement of a stored submission. */
  datatype Ack = Ack(message: string, id: string)

  // ---------------------------------------------------------------------------
  // ObjectId text form: `ObjectId(s)` accepts exactly 24 hex digits of either
  // case; `str(oid)` gives 24 lower-case hex digits.
  // ---------------------------------------------------------------------------

  const ObjectIdDigits: nat := 24

  predicate IsHexDigit(c: char) {
    ('0' <= c <= '9') || ('a' <= c <= 'f') || ('A' <= c <= 'F')
  }

  function HexValue(c: char): (v: nat)
    requires IsHexDigit(c)
    ensures v < 16
  {
    if '0' <= c <= '9' then c as int - '0' as int
    else if 'a' <= c <= 'f' then c as int - 'a' as int + 10
    else c as int - 'A' as int + 10
  }

  function HexChar(v: nat): (c: char)
    requires v < 16
    ensures IsHexDigit(c) && HexValue(c) == v && !IsUpper(c)
  {
    "0123456789abcdef"[v]
  }

  predicate AllHex(s: string) {
    forall i :: 0 <= i < |s| ==> IsHexDigit(s[i])
  }

  function HexNumber(s: string): nat
    requires AllHex(s)
  {
    if s == [] then 0 else HexNumber(s[..|s| - 1]) * 16 + HexValue(s[|s| - 1])
  }

  function Pow16(k: nat): (p: nat)
    ensures p >= 1
  {
    if k == 0 then 1 else 16 * Pow16(k - 1)
  }

  /** The lowest `width` hex digits of `n`, most significant first, in lower
      case. */
  function HexDigits(n: nat, width: nat): (s: string)
    ensures |s| == width && AllHex(s)
    ensures forall i :: 0 <= i < |s| ==> !IsUpper(s[i])
  {
    if width == 0 then [] else HexDigits(n / 16, width - 1) + [HexChar(n % 16)]
  }

  /** `ObjectId(s)`: `None` where the constructor raises. */
  function ParseObjectId(s: string): (r: Option<Id>)
    ensures r.Some? <==> |s| == ObjectIdDigits && AllHex(s)
  {
    if |s| == ObjectIdDigits && AllHex(s) then Some(HexNumber(s)) else None
  }

  /** `str(oid)`: always 24 lower-case hex digits, which `ObjectId(...)`
      accepts. */
  function IdString(id: Id): (s: string)
    ensures |s| == ObjectIdDigits && AllHex(s) && ParseObjectId(s).Some?
    ensures forall i :: 0 <= i < |s| ==> !IsUpper(s[i])
  {
    HexDigits(id, ObjectIdDigits)
  }

  /** `str(oid)` is in lower case, whichever case the id was parsed from. */
  lemma IdStringLowerCase(id: Id)
    ensures Lower(IdString(id)) == IdString(id)
  {
    LowerFixedPoint(IdString(id));
  }

  lemma {:induction false} HexRoundTrip(n: nat, width: nat)
    requires n < Pow16(width)
    ensures HexNumber(HexDigits(n, width)) == n
  {
    if width > 0 {
      var prefix := HexDigits(n / 16, width - 1);
      var c := HexChar(n % 16);
      var s := HexDigits(n, width);
      assert s == prefix + [c];
      assert s[..|s| - 1] == prefix;
      assert n / 16 < Pow16(width - 1);
      HexRoundTrip(n / 16, width - 1);
      assert HexNumber(s) == HexNumber(prefix) * 16 + HexValue(c);
    }
  }

  /** The id a handler returns as text names the stored document again when
      an admin route parses it. */
  lemma ObjectIdRoundTrip(id: Id)
    requires id < Pow16(ObjectIdDigits)
    ensures ParseObjectId(IdString(id)) == Some(id)
  {
    HexRoundTrip(id, ObjectIdDigits);
  }

  // ---------------------------------------------------------------------------
  // Queries over a collection
  // ---------------------------------------------------------------------------

  /** `find_one(filter)` on a single field: the position of the first
      document whose key equals `k`, or `None` when no document has it. */
  function FindFirst<R, K(==)>(docs: seq<Doc<R>>, key: R -> K, k: K): (r: Option<nat>)
    ensures r.Some? ==> r.value < |docs| && key(docs[r.value].body) == k
    ensures r.Some? ==> forall i :: 0 <= i < r.value ==> key(docs[i].body) != k
    ensures r.None? ==> forall i :: 0 <= i < |docs| ==> key(docs[i].body) != k
  {
    if docs == [] then None
    else if key(docs[0].body) == k then Some(0)
    else match FindFirst(docs[1..], key, k)
      case None => None
      case Some(j) => Some(j + 1)
  }

  /** `find_one(filter)` is not empty: some document's key equals `k`. */
  predicate KeyTaken<R, K(==)>(docs: seq<Doc<R>>, key: R -> K, k: K) {
    exists i :: 0 <= i < |docs| && key(docs[i].body) == k
  }

  /** What a unique index on `key` guarantees. */
  ghost predicate KeysUnique<R, K>(docs: seq<Doc<R>>, key: R -> K) {
    forall i, j :: 0 <= i < j < |docs| ==> key(docs[i].body) != key(docs[j].body)
  }

  /** Every id is below the next id to hand out, and no two documents share one. */
  ghost predicate IdsWellFormed<R>(docs: seq<Doc<R>>, nextId: Id) {
    && (forall i :: 0 <= i < |docs| ==> docs[i].id < nextId)
    && (forall i, j :: 0 <= i < j < |docs| ==> docs[i].id != docs[j].id)
  }

  predicate HasId<R>(docs: seq<Doc<R>>, id: Id) {
    exists i :: 0 <= i < |docs| && docs[i].id == id
  }

  /** The position of the first document with this id (what `find_one` and
      `update_one` address). */
  function IndexOfId<R>(docs: seq<Doc<R>>, id: Id): (k: nat)
    requires HasId(docs, id)
    ensures k < |docs| && docs[k].id == id
    ensures forall i :: 0 <= i < k ==> docs[i].id != id
  {
    if docs[0].id == id then 0 else IndexOfId(docs[1..], id) + 1
  }

  /** `delete_one({"_id": id})`: the first document with that id goes. */
  function RemoveFirst<R>(docs: seq<Doc<R>>, id: Id): seq<Doc<R>> {
    if docs == [] then []
    else if docs[0].id == id then docs[1..]
    else [docs[0]] + RemoveFirst(docs[1..], id)
  }

  lemma {:induction false} RemoveFirstAbsent<R>(docs: seq<Doc<R>>, id: Id)
    requires !HasId(docs, id)
    ensures RemoveFirst(docs, id) == docs
  {
    if docs != [] {
      assert !HasId(docs[1..], id) by {
        forall i | 0 <= i < |docs[1..]| ensures docs[1..][i].id != id {
          assert docs[1..][i] == docs[i + 1];
        }
      }
      RemoveFirstAbsent(docs[1..], id);
    }
  }

  /** Deleting an id that is present removes exactly the document at its first
      position and keeps every other document, in order. */
  lemma {:induction false} RemoveFirstPresent<R>(docs: seq<Doc<R>>, id: Id)
    requires HasId(docs, id)
    ensures var k := IndexOfId(docs, id);
      RemoveFirst(docs, id) == docs[..k] + docs[k + 1..]
  {
    if docs[0].id != id {
      RemoveFirstPresent(docs[1..], id);
      var k := IndexOfId(docs[1..], id);
      assert docs[1..][..k] + docs[1..][k + 1..] == docs[1..k + 1] + docs[k + 2..];
      assert [docs[0]] + docs[1..k + 1] == docs[..k + 1];
    }
  }

  /** With unique ids a successful delete leaves one document fewer and none
      with that id. */
  lemma RemoveFirstUnique<R>(docs: seq<Doc<R>>, id: Id, nextId: Id)
    requires IdsWellFormed(docs, nextId) && HasId(docs, id)
    ensures |RemoveFirst(docs, id)| == |docs| - 1
    ensures !HasId(RemoveFirst(docs, id), id)
    ensures IdsWellFormed(RemoveFirst(docs, id), nextId)
    ensures forall d :: d in docs && d.id != id ==> d in RemoveFirst(docs, id)
  {
    var k := IndexOfId(docs, id);
    RemoveFirstPresent(docs, id);
    var rest := docs[..k] + docs[k + 1..];
    forall i | 0 <= i < |rest| ensures rest[i].id != id && rest[i] == docs[if i < k then i else i + 1] {
      if i >= k { assert rest[i] == docs[i + 1]; }
    }
    forall d | d in docs && d.id != id ensures d in rest {
      var i :| 0 <= i < |docs| && docs[i] == d;
      if i < k { assert rest[i] == d; } else { assert i > k; assert rest[i - 1] == d; }
    }
  }

  /** Deleting one document keeps a unique key unique. */
  lemma RemoveFirstKeepsKeysUnique<R, K>(docs: seq<Doc<R>>, id: Id, key: R -> K)
    requires KeysUnique(docs, key)
    ensures KeysUnique(RemoveFirst(docs, id), key)
  {
    if HasId(docs, id) {
      var k := IndexOfId(docs, id);
      RemoveFirstPresent(docs, id);
      var rest := docs[..k] + docs[k + 1..];
      forall i | 0 <= i < |rest| ensures rest[i] == docs[if i < k then i else i + 1] {
        if i >= k { assert rest[i] == docs[i + 1]; }
      }
    } else {
      RemoveFirstAbsent(docs, id);
    }
  }

  /** Appending a document whose key is not yet taken keeps the key unique: the
      guard each handler runs before inserting is enough, in a sequential run,
      to keep its collection free of duplicates. */
  lemma GuardedAppendKeepsKeysUnique<R, K>(docs: seq<Doc<R>>, key: R -> K, d: Doc<R>)
    requires KeysUnique(docs, key) && !KeyTaken(docs, key, key(d.body))
    ensures KeysUnique(docs + [d], key)
  {
    var after := docs + [d];
    forall i, j | 0 <= i < j < |after| ensures key(after[i].body) != key(after[j].body) {
      if j == |docs| {
        assert after[i] == docs[i];
      } else {
        assert after[i] == docs[i] && after[j] == docs[j];
      }
    }
  }

  /** Appending under the next id keeps ids well formed once the counter moves on. */
  lemma AppendKeepsIdsWellFormed<R>(docs: seq<Doc<R>>, nextId: Id, createdAt: Option<Time>, body: R)
    requires IdsWellFormed(docs, nextId)
    ensures IdsWellFormed(docs + [Doc(nextId, createdAt, body)], nextId + 1)
  {
  }

  /** The unique keys of the two indexed collections. */
  function MeetingKey(m: Meeting): (string, string) { (m.email, m.date) }
  function NewsletterKey(n: Newsletter): string { n.email }

  /** The fields the user and admin lookups filter on. */
  function UserEmail(u: User): string { u.email }
  function AdminName(a: Admin): string { a.username }

  /** What `insert_one` reports. */
  datatype InsertOutcome = Inserted(id: Id) | DuplicateKey | StoreError

  // ---------------------------------------------------------------------------
  // The database: the collections of `db` and the indexes startup declared.
  // ---------------------------------------------------------------------------

  class Database {
    var users: seq<Doc<User>>
    var admins: seq<Doc<Admin>>
    var meetings: seq<Doc<Meeting>>
    var audits: seq<Doc<Audit>>
    var contacts: seq<Doc<Contact>>
    var newsletters: seq<Doc<Newsletter>>
    var packages: seq<Doc<Package>>
    /** The next ObjectId the store hands out; every id in use is below it. */
    var nextId: Id
    /** Whether the unique index on meetings `(email, date)` exists. */
    var meetingsIndexed: bool
    /** Whether the unique index on newsletters `email` exists. */
    var newslettersIndexed: bool

    ghost predicate Valid()
      reads this
    {
      && IdsWellFormed(users, nextId)
      && IdsWellFormed(admins, nextId)
      && IdsWellFormed(meetings, nextId)
      && IdsWellFormed(audits, nextId)
      && IdsWellFormed(contacts, nextId)
      && IdsWellFormed(newsletters, nextId)
      && IdsWellFormed(packages, nextId)
      && (meetingsIndexed ==> KeysUnique(meetings, MeetingKey))
      && (newslettersIndexed ==> KeysUnique(newsletters, NewsletterKey))
    }

    /** An empty database before startup has declared any index. */
    constructor ()
      ensures Valid()
      ensures users == [] && admins == [] && meetings == [] && audits == []
      ensures contacts == [] && newsletters == [] && packages == []
      ensures nextId == 0 && !meetingsIndexed && !newslettersIndexed
    {
      users, admins, meetings, audits := [], [], [], [];
      contacts, newsletters, packages := [], [], [];
      nextId := 0;
      meetingsIndexed, newslettersIndexed := false, false;
    }

    /** `db.meetings.insert_one(doc)`: the unique index, when declared, rejects
        a second `(email, date)`; `fails` stands for any other store error. */
    method InsertMeeting(m: Meeting, now: Time, fails: bool) returns (o: InsertOutcome)
      requires Valid()
      modifies this`meetings, this`nextId
      ensures Valid()
      ensures o == if meetingsIndexed && KeyTaken(old(meetings), MeetingKey, MeetingKey(m)) then DuplicateKey
                   else if fails then StoreError else Inserted(old(nextId))
      ensures o.Inserted? ==> meetings == old(meetings) + [Doc(old(nextId), Some(BsonTime(now)), m)] && nextId == old(nextId) + 1
      ensures !o.Inserted? ==> meetings == old(meetings) && nextId == old(nextId)
    {
      if meetingsIndexed && KeyTaken(meetings, MeetingKey, MeetingKey(m)) {
        return DuplicateKey;
      }
      if fails {
        return StoreError;
      }
      if meetingsIndexed {
        GuardedAppendKeepsKeysUnique(meetings, MeetingKey, Doc(nextId, Some(BsonTime(now)), m));
      }
      meetings := meetings + [Doc(nextId, Some(BsonTime(now)), m)];
      o := Inserted(nextId);
      nextId := nextId + 1;
    }

    /** `db.newsletters.insert_one(doc)`, under the unique index on `email`. */
    method InsertNewsletter(n: Newsletter, now: Time, fails: bool) returns (o: InsertOutcome)
      requires Valid()
      modifies this`newsletters, this`nextId
      ensures Valid()
      ensures o == if newslettersIndexed && KeyTaken(old(newsletters), NewsletterKey, n.email) then DuplicateKey
                   else if fails then StoreError else Inserted(old(nextId))
      ensures o.Inserted? ==> newsletters == old(newsletters) + [Doc(old(nextId), Some(BsonTime(now)), n)] && nextId == old(nextId) + 1
      ensures !o.Inserted? ==> newsletters == old(newsletters) && nextId == old(nextId)
    {
      if newslettersIndexed && KeyTaken(newsletters, NewsletterKey, n.email) {
        return DuplicateKey;
      }
      if fails {
        return StoreError;
      }
      if newslettersIndexed {
        GuardedAppendKeepsKeysUnique(newsletters, NewsletterKey, Doc(nextId, Some(BsonTime(now)), n));
      }
      newsletters := newsletters + [Doc(nextId, Some(BsonTime(now)), n)];
      o := Inserted(nextId);
      nextId := nextId + 1;
    }

    /** `db.audits.insert_one(doc)`: no index beyond `_id`. */
    method InsertAudit(a: Audit, now: Time, fails: bool) returns (o: InsertOutcome)
      requires Valid()
      modifies this`audits, this`nextId
      ensures Valid()
      ensures o == if fails then StoreError else Inserted(old(nextId))
      ensures o.Inserted? ==> audits == old(audits) + [Doc(old(nextId), Some(BsonTime(now)), a)] && nextId == old(nextId) + 1
      ensures !o.Inserted? ==> audits == old(audits) && nextId == old(nextId)
    {
      if fails {
        return StoreError;
      }
      audits := audits + [Doc(nextId, Some(BsonTime(now)), a)];
      o := Inserted(nextId);
      nextId := nextId + 1;
    }

    /** `db.contacts.insert_one(doc)`. */
    method InsertContact(c: Contact, now: Time, fails: bool) returns (o: InsertOutcome)
      requires Valid()
      modifies this`contacts, this`nextId
      ensures Valid()
      ensures o == if fails then StoreError else Inserted(old(nextId))
      ensures o.Inserted? ==> contacts == old(contacts) + [Doc(old(nextId), Some(BsonTime(now)), c)] && nextId == old(nextId) + 1
      ensures !o.Inserted? ==> contacts == old(contacts) && nextId == old(nextId)
    {
      if fails {
        return StoreError;
      }
      contacts := contacts + [Doc(nextId, Some(BsonTime(now)), c)];
      o := Inserted(nextId);
      nextId := nextId + 1;
    }

    /** `db.packages.insert_one(doc)`. */
    method InsertPackage(p: Package, now: Time, fails: bool) returns (o: InsertOutcome)
      requires Valid()
      modifies this`packages, this`nextId
      ensures Valid()
      ensures o == if fails then StoreError else Inserted(old(nextId))
      ensures o.Inserted? ==> packages == old(packages) + [Doc(old(nextId), Some(BsonTime(now)), p)] && nextId == old(nextId) + 1
      ensures !o.Inserted? ==> packages == old(packages) && nextId == old(nextId)
    {
      if fails {
        return StoreError;
      }
      packages := packages + [Doc(nextId, Some(BsonTime(now)), p)];
      o := Inserted(nextId);
      nextId := nextId + 1;
    }

    /** `db.users.insert_one(doc)`. */
    method InsertUser(u: User, now: Time, fails: bool) returns (o: InsertOutcome)
      requires Valid()
      modifies this`users, this`nextId
      ensures Valid()
      ensures o == if fails then StoreError else Inserted(old(nextId))
      ensures o.Inserted? ==> users == old(users) + [Doc(old(nextId), Some(BsonTime(now)), u)] && nextId == old(nextId) + 1
      ensures !o.Inserted? ==> users == old(users) && nextId == old(nextId)
    {
      if fails {
        return StoreError;
      }
      users := users + [Doc(nextId, Some(BsonTime(now)), u)];
      o := Inserted(nextId);
      nextId := nextId + 1;
    }

    /** `db["admins"].insert_one(doc)`: no index beyond `_id`, and admin
        documents carry no `created_at`. */
    method InsertAdmin(a: Admin, fails: bool) returns (o: InsertOutcome)
      requires Valid()
      modifies this`admins, this`nextId
      ensures Valid()
      ensures o == if fails then StoreError else Inserted(old(nextId))
      ensures o.Inserted? ==> admins == old(admins) + [Doc(old(nextId), None, a)] && nextId == old(nextId) + 1
      ensures !o.Inserted? ==> admins == old(admins) && nextId == old(nextId)
    {
      if fails {
        return StoreError;
      }
      admins := admins + [Doc(nextId, None, a)];
      o := Inserted(nextId);
      nextId := nextId + 1;
    }
  }
}
