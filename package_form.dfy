/**
 * `POST /choose-package`: refuse a second request for the same package from
 * the same email, otherwise store the request, with missing notes stored as
 * the empty string, and schedule the notification emails.
 */
module PackageForm {
  import opened Common
  import opened Store

  const DuplicateSubmission: string := "Duplicate package submission detected."
  const InsertionFailed: string := "Database insertion failed."
  const Submitted: string :=
    "Package request submitted successfully. A confirmation email has been sent."

  /** The request body; only `notes` may be left out. */
  datatype PackageRequest = PackageRequest(package: string, price: string, name: string, email: string,
                                           company: string, url: string, businessType: string,
                                           notes: Option<string>)

  /** The 409 detail that names the package. */
  function AlreadyRequested(package: string): string {
    "You have already submitted a request for the " + package + " package."
  }

  /** The pair the handler's lookup compares. */
  function PackageKey(p: Package): (string, string) { (p.email, p.package) }

  /** `payload.notes or ""`. */
  function NotesOrEmpty(notes: Option<string>): (s: string)
    ensures notes.None? ==> s == ""
    ensures notes.Some? ==> s == notes.value
  {
    match notes
    case None => ""
    case Some(n) => n
  }

  /** The stored document's fields. */
  function Record(req: PackageRequest): (p: Package)
    ensures p.package == req.package && p.price == req.price && p.name == req.name
    ensures p.email == req.email && p.company == req.company && p.url == req.url
    ensures p.businessType == req.businessType && p.notes == NotesOrEmpty(req.notes)
  {
    Package(req.package, req.price, req.name, req.email, req.company, req.url, req.businessType,
            NotesOrEmpty(req.notes))
  }

  /** `db.packages.find_one({"email": ..., "package": ...})` is not empty. */
  predicate AlreadySubmitted(packages: seq<Doc<Package>>, req: PackageRequest) {
    KeyTaken(packages, PackageKey, (req.email, req.package))
  }

  /** The handler. The packages collection has no unique index, so the insert
      never reports a duplicate key; `insertFails` stands for any other store
      error. */
  method Choose(db: Database, req: PackageRequest, now: Time, operator: string,
                insertFails: bool, scheduleFails: bool)
    returns (r: Reply<Ack>, jobs: seq<Job>)
    requires db.Valid()
    modifies db`packages, db`nextId
    ensures db.Valid()
    ensures
      if AlreadySubmitted(old(db.packages), req) then
        r == Err(409, AlreadyRequested(req.package)) && db.packages == old(db.packages) && jobs == []
      else if insertFails then
        r == Err(500, InsertionFailed) && db.packages == old(db.packages) && jobs == []
      else
        && r == Ok(201, Ack(Submitted, IdString(old(db.nextId))))
        && db.packages == old(db.packages) + [Doc(old(db.nextId), Some(BsonTime(now)), Record(req))]
        && jobs == Scheduled(NotifyBoth(req.email, operator), scheduleFails)
    ensures KeysUnique(old(db.packages), PackageKey) ==> KeysUnique(db.packages, PackageKey)
  {
    if AlreadySubmitted(db.packages, req) {
      return Err(409, AlreadyRequested(req.package)), [];
    }
    ghost var before := db.packages;
    var outcome := db.InsertPackage(Record(req), now, insertFails);
    match outcome {
      case Inserted(id) =>
        if KeysUnique(before, PackageKey) {
          GuardedAppendKeepsKeysUnique(before, PackageKey, Doc(id, Some(BsonTime(now)), Record(req)));
        }
        jobs := Scheduled(NotifyBoth(req.email, operator), scheduleFails);
        r := Ok(201, Ack(Submitted, IdString(id)));
      case DuplicateKey =>
        r, jobs := Err(409, DuplicateSubmission), [];
      case StoreError =>
        r, jobs := Err(500, InsertionFailed), [];
    }
  }

  /** After a request is stored, the same email may still ask for any other
      package, and the same package may be asked for by any other email; only
      the same pair is refused. */
  lemma OnlyTheSamePairRefused(packages: seq<Doc<Package>>, id: Id, now: Time,
                               req: PackageRequest, next: PackageRequest)
    requires !AlreadySubmitted(packages, next)
    ensures AlreadySubmitted(packages + [Doc(id, Some(BsonTime(now)), Record(req))], next)
      <==> next.email == req.email && next.package == req.package
  {
    var after := packages + [Doc(id, Some(BsonTime(now)), Record(req))];
    if next.email == req.email && next.package == req.package {
      assert PackageKey(after[|packages|].body) == (next.email, next.package);
    } else {
      forall i | 0 <= i < |after| ensures PackageKey(after[i].body) != (next.email, next.package) {
        if i < |packages| { assert after[i] == packages[i]; }
      }
    }
  }
}
