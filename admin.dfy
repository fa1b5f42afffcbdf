/**
 * The `/admin` routes: bearer-token authentication, the admin login, the six
 * listings (projections that never carry a password), the six deletions by
 * id, and the user update.
 */
module Admin {
  import opened Common
  import opened Store

  const NotAuthenticated: string := "Not authenticated"
  const InvalidToken: string := "Invalid token"
  const BadCredentials: string := "Invalid username or password"
  const BearerPrefix: string := "Bearer "

  // ---------------------------------------------------------------------------
  // Authentication
  // ---------------------------------------------------------------------------

  /** What `jwt.decode` gives: a `JWTError` (bad signature, expired, garbled),
      or the payload with or without a `sub` claim. */
  datatype Decoded = DecodeError | Payload(sub: Option<string>)

  /** The outcome of the `get_current_admin` dependency. */
  datatype Auth = Authorized(username: string) | Unauthorized(detail: string)

  /** The text of `s` up to its first blank. */
  function UpToSpace(s: string): (r: string)
    ensures |r| <= |s| && r == s[..|r|]
    ensures forall i :: 0 <= i < |r| ==> r[i] != ' '
    ensures |r| < |s| ==> s[|r|] == ' '
  {
    if s == [] || s[0] == ' ' then [] else [s[0]] + UpToSpace(s[1..])
  }

  /** `authorization.split(" ")[1]` for a header that starts with `Bearer `:
      the piece between the first and the second blank. */
  function BearerToken(header: string): (t: string)
    requires BearerPrefix <= header
    ensures |BearerPrefix| + |t| <= |header| && header[|BearerPrefix|..|BearerPrefix| + |t|] == t
    ensures forall i :: 0 <= i < |t| ==> t[i] != ' '
  {
    UpToSpace(header[|BearerPrefix|..])
  }

  /** `get_current_admin`: the username the bearer token names. The token is
      decoded with `decode`, which stands for signature checking with the
      configured key and algorithm. */
  function CurrentAdmin(authorization: Option<string>, decode: string -> Decoded): (a: Auth)
    ensures authorization.None? || !(BearerPrefix <= authorization.value) ==> a == Unauthorized(NotAuthenticated)
    ensures authorization.Some? && BearerPrefix <= authorization.value ==>
      match decode(BearerToken(authorization.value))
      case Payload(Some(name)) => a == Authorized(name)
      case _ => a == Unauthorized(InvalidToken)
  {
    if authorization.None? || !(BearerPrefix <= authorization.value) then Unauthorized(NotAuthenticated)
    else match decode(BearerToken(authorization.value))
      case DecodeError => Unauthorized(InvalidToken)
      case Payload(None) => Unauthorized(InvalidToken)
      case Payload(Some(name)) => Authorized(name)
  }

  /** A token without blanks, sent as `Bearer <token>`, is exactly what the
      server decodes. */
  lemma {:induction false} BearerRoundTrip(token: string)
    requires forall i :: 0 <= i < |token| ==> token[i] != ' '
    ensures BearerPrefix <= BearerPrefix + token
    ensures BearerToken(BearerPrefix + token) == token
  {
    var h := BearerPrefix + token;
    assert h[..|BearerPrefix|] == BearerPrefix;
    assert h[|BearerPrefix|..] == token;
  }

  /** Anything after a second blank is ignored, and a doubled blank leaves an
      empty token. */
  lemma BearerTokenTruncated(token: string, rest: string)
    requires forall i :: 0 <= i < |token| ==> token[i] != ' '
    ensures BearerPrefix <= BearerPrefix + token + " " + rest
    ensures BearerToken(BearerPrefix + token + " " + rest) == token
  {
    var h := BearerPrefix + token + " " + rest;
    assert h[..|BearerPrefix|] == BearerPrefix;
    var tail := h[|BearerPrefix|..];
    assert tail == token + (" " + rest);
    UpToSpaceStops(token, " " + rest);
  }

  lemma {:induction false} UpToSpaceStops(token: string, rest: string)
    requires forall i :: 0 <= i < |token| ==> token[i] != ' '
    requires rest != [] && rest[0] == ' '
    ensures UpToSpace(token + rest) == token
  {
    if token != [] {
      assert (token + rest)[1..] == token[1..] + rest;
      UpToSpaceStops(token[1..], rest);
    }
  }

  // ---------------------------------------------------------------------------
  // Admin login
  // ---------------------------------------------------------------------------

  /** The body `{"access_token": ..., "token_type": "bearer"}`. */
  datatype TokenBody = TokenBody(accessToken: Token, tokenType: string)

  /** `db.admins.find_one({"username": username})`: the first admin stored
      under that name. */
  function FindAdmin(admins: seq<Doc<Admin>>, username: string): Option<nat> {
    FindFirst(admins, AdminName, username)
  }

  /** `POST /admin/login`. An unknown username and a wrong password get the
      very same refusal; a success issues a token whose subject is the admin's
      username. */
  function AdminLogin(admins: seq<Doc<Admin>>, username: string, password: string, now: Time)
    : (r: Reply<TokenBody>)
    ensures r.Err? ==> r == Err(401, BadCredentials)
    ensures r.Ok? ==> r.status == 200 && r.body.tokenType == "bearer"
    ensures r.Ok? ==> r.body.accessToken.sub == username && r.body.accessToken.exp > now
    ensures r.Ok? <==>
      FindAdmin(admins, username).Some? && Verify(password, admins[FindAdmin(admins, username).value].body.password)
  {
    match FindAdmin(admins, username)
    case None => Err(401, BadCredentials)
    case Some(k) =>
      if !Verify(password, admins[k].body.password) then Err(401, BadCredentials)
      else Ok(200, TokenBody(CreateAccessToken(admins[k].body.username, now), "bearer"))
  }

  /** A token issued by the admin login, once signed by an `encode` that the
      server's `decode` inverts and sent back as a bearer header, authorizes
      its holder as that admin. */
  lemma LoginThenAuthorized(admins: seq<Doc<Admin>>, username: string, password: string, now: Time,
                            encode: Token -> string, decode: string -> Decoded)
    requires AdminLogin(admins, username, password, now).Ok?
    requires forall t :: decode(encode(t)) == Payload(Some(t.sub))
    requires forall t, i :: 0 <= i < |encode(t)| ==> encode(t)[i] != ' '
    ensures var t := AdminLogin(admins, username, password, now).body.accessToken;
      CurrentAdmin(Some(BearerPrefix + encode(t)), decode) == Authorized(username)
  {
    var t := AdminLogin(admins, username, password, now).body.accessToken;
    BearerRoundTrip(encode(t));
  }

  /** `GET /admin/me`: the dependency hands the handler the username as a
      plain string, and the handler looks a `username` key up on it, which a
      string does not have; so an authorized call always ends in an uncaught
      500, and only the dependency's 401s come back as such. */
  function AdminMe(authorization: Option<string>, decode: string -> Decoded): (r: Reply<string>)
    ensures r.Err?
    ensures CurrentAdmin(authorization, decode).Unauthorized? ==> r == Err(401, CurrentAdmin(authorization, decode).detail)
    ensures CurrentAdmin(authorization, decode).Authorized? ==> r == Err(500, InternalError)
  {
    match CurrentAdmin(authorization, decode)
    case Unauthorized(detail) => Err(401, detail)
    case Authorized(_) => Err(500, InternalError)
  }

  /** Even with a token from a successful admin login, `GET /admin/me` never
      answers with the username. */
  lemma LoginThenMeFails(admins: seq<Doc<Admin>>, username: string, password: string, now: Time,
                         encode: Token -> string, decode: string -> Decoded)
    requires AdminLogin(admins, username, password, now).Ok?
    requires forall t :: decode(encode(t)) == Payload(Some(t.sub))
    requires forall t, i :: 0 <= i < |encode(t)| ==> encode(t)[i] != ' '
    ensures var t := AdminLogin(admins, username, password, now).body.accessToken;
      AdminMe(Some(BearerPrefix + encode(t)), decode) == Err(500, InternalError)
  {
    LoginThenAuthorized(admins, username, password, now, encode, decode);
  }

  // ---------------------------------------------------------------------------
  // Listings
  // ---------------------------------------------------------------------------

  /** `created_at.isoformat()`, or JSON `null` when the document has none. */
  function CreatedAtJson(createdAt: Option<Time>): (j: Option<string>)
    ensures j.Some? <==> createdAt.Some?
    ensures createdAt.Some? ==> j.value == IsoFormat(createdAt.value)
  {
    match createdAt
    case None => None
    case Some(t) => Some(IsoFormat(t))
  }

  /** The rows of the six listings; none carries a password. */
  datatype UserOut = UserOut(username: string, email: string, id: string)
  datatype MeetingOut = MeetingOut(id: string, name: string, email: string, agenda: string, date: string,
                                   createdAt: Option<string>)
  datatype AuditOut = AuditOut(id: string, firstname: string, lastname: string, email: string,
                               brandname: string, producturl: string, message: string,
                               createdAt: Option<string>)
  datatype ContactOut = ContactOut(id: string, firstname: string, email: string, subject: string,
                                   message: string, createdAt: Option<string>)
  datatype NewsletterOut = NewsletterOut(id: string, email: string, createdAt: Option<string>)
  datatype PackageOut = PackageOut(id: string, name: string, email: string, package: string,
                                   price: string, company: string, url: string, businessType: string,
                                   notes: string, createdAt: Option<string>)

  function UserRow(d: Doc<User>): (r: UserOut)
    ensures ParseObjectId(r.id).Some?
    ensures r.username == d.body.username && r.email == d.body.email
  {
    UserOut(d.body.username, d.body.email, IdString(d.id))
  }

  function MeetingRow(d: Doc<Meeting>): (r: MeetingOut)
    ensures ParseObjectId(r.id).Some?
    ensures r.email == d.body.email && r.date == d.body.date
    ensures r.createdAt.Some? <==> d.createdAt.Some?
  {
    MeetingOut(IdString(d.id), d.body.name, d.body.email, d.body.agenda, d.body.date,
               CreatedAtJson(d.createdAt))
  }

  function AuditRow(d: Doc<Audit>): (r: AuditOut)
    ensures ParseObjectId(r.id).Some?
    ensures r.email == d.body.email && r.producturl == d.body.producturl
    ensures r.createdAt.Some? <==> d.createdAt.Some?
  {
    AuditOut(IdString(d.id), d.body.firstname, d.body.lastname, d.body.email, d.body.brandname,
             d.body.producturl, d.body.message, CreatedAtJson(d.createdAt))
  }

  function ContactRow(d: Doc<Contact>): (r: ContactOut)
    ensures ParseObjectId(r.id).Some?
    ensures r.email == d.body.email && r.message == d.body.message
    ensures r.createdAt.Some? <==> d.createdAt.Some?
  {
    ContactOut(IdString(d.id), d.body.firstname, d.body.email, d.body.subject, d.body.message,
               CreatedAtJson(d.createdAt))
  }

  function NewsletterRow(d: Doc<Newsletter>): (r: NewsletterOut)
    ensures ParseObjectId(r.id).Some?
    ensures r.email == d.body.email
    ensures r.createdAt.Some? <==> d.createdAt.Some?
  {
    NewsletterOut(IdString(d.id), d.body.email, CreatedAtJson(d.createdAt))
  }

  function PackageRow(d: Doc<Package>): (r: PackageOut)
    ensures ParseObjectId(r.id).Some?
    ensures r.email == d.body.email && r.package == d.body.package && r.notes == d.body.notes
    ensures r.createdAt.Some? <==> d.createdAt.Some?
  {
    PackageOut(IdString(d.id), d.body.name, d.body.email, d.body.package, d.body.price, d.body.company,
               d.body.url, d.body.businessType, d.body.notes, CreatedAtJson(d.createdAt))
  }

  /** The cursor loop every listing runs: one row per stored document, in
      store order. */
  method Project<R, V>(docs: seq<Doc<R>>, row: Doc<R> -> V) returns (out: seq<V>)
    ensures |out| == |docs|
    ensures forall i :: 0 <= i < |docs| ==> out[i] == row(docs[i])
  {
    out := [];
    var i := 0;
    while i < |docs|
      invariant 0 <= i <= |docs|
      invariant |out| == i
      invariant forall j :: 0 <= j < i ==> out[j] == row(docs[j])
    {
      out := out + [row(docs[i])];
      i := i + 1;
    }
  }

  /** `GET /admin/users`: every user's name, email and id, and nothing else. */
  method ListUsers(db: Database, authorization: Option<string>, decode: string -> Decoded)
    returns (r: Reply<seq<UserOut>>)
    ensures CurrentAdmin(authorization, decode).Unauthorized? ==>
      r == Err(401, CurrentAdmin(authorization, decode).detail)
    ensures CurrentAdmin(authorization, decode).Authorized? ==>
      r.Ok? && r.status == 200 && |r.body| == |db.users| &&
      forall i :: 0 <= i < |db.users| ==>
        r.body[i] == UserOut(db.users[i].body.username, db.users[i].body.email, IdString(db.users[i].id))
  {
    var auth := CurrentAdmin(authorization, decode);
    if auth.Unauthorized? {
      return Err(401, auth.detail);
    }
    var rows := Project(db.users, UserRow);
    r := Ok(200, rows);
  }

  /** `GET /admin/meetings`. */
  method ListMeetings(db: Database, authorization: Option<string>, decode: string -> Decoded)
    returns (r: Reply<seq<MeetingOut>>)
    ensures CurrentAdmin(authorization, decode).Unauthorized? ==>
      r == Err(401, CurrentAdmin(authorization, decode).detail)
    ensures CurrentAdmin(authorization, decode).Authorized? ==>
      r.Ok? && r.status == 200 && |r.body| == |db.meetings| &&
      forall i :: 0 <= i < |db.meetings| ==>
        var d := db.meetings[i];
        r.body[i] == MeetingOut(IdString(d.id), d.body.name, d.body.email, d.body.agenda, d.body.date,
                                CreatedAtJson(d.createdAt))
  {
    var auth := CurrentAdmin(authorization, decode);
    if auth.Unauthorized? {
      return Err(401, auth.detail);
    }
    var rows := Project(db.meetings, MeetingRow);
    r := Ok(200, rows);
  }

  /** `GET /admin/audits`. */
  method ListAudits(db: Database, authorization: Option<string>, decode: string -> Decoded)
    returns (r: Reply<seq<AuditOut>>)
    ensures CurrentAdmin(authorization, decode).Unauthorized? ==>
      r == Err(401, CurrentAdmin(authorization, decode).detail)
    ensures CurrentAdmin(authorization, decode).Authorized? ==>
      r.Ok? && r.status == 200 && |r.body| == |db.audits| &&
      forall i :: 0 <= i < |db.audits| ==>
        var d := db.audits[i];
        r.body[i] == AuditOut(IdString(d.id), d.body.firstname, d.body.lastname, d.body.email,
                              d.body.brandname, d.body.producturl, d.body.message, CreatedAtJson(d.createdAt))
  {
    var auth := CurrentAdmin(authorization, decode);
    if auth.Unauthorized? {
      return Err(401, auth.detail);
    }
    var rows := Project(db.audits, AuditRow);
    r := Ok(200, rows);
  }

  /** `GET /admin/contacts`. */
  method ListContacts(db: Database, authorization: Option<string>, decode: string -> Decoded)
    returns (r: Reply<seq<ContactOut>>)
    ensures CurrentAdmin(authorization, decode).Unauthorized? ==>
      r == Err(401, CurrentAdmin(authorization, decode).detail)
    ensures CurrentAdmin(authorization, decode).Authorized? ==>
      r.Ok? && r.status == 200 && |r.body| == |db.contacts| &&
      forall i :: 0 <= i < |db.contacts| ==>
        var d := db.contacts[i];
        r.body[i] == ContactOut(IdString(d.id), d.body.firstname, d.body.email, d.body.subject,
                                d.body.message, CreatedAtJson(d.createdAt))
  {
    var auth := CurrentAdmin(authorization, decode);
    if auth.Unauthorized? {
      return Err(401, auth.detail);
    }
    var rows := Project(db.contacts, ContactRow);
    r := Ok(200, rows);
  }

  /** `GET /admin/newsletters`. */
  method ListNewsletters(db: Database, authorization: Option<string>, decode: string -> Decoded)
    returns (r: Reply<seq<NewsletterOut>>)
    ensures CurrentAdmin(authorization, decode).Unauthorized? ==>
      r == Err(401, CurrentAdmin(authorization, decode).detail)
    ensures CurrentAdmin(authorization, decode).Authorized? ==>
      r.Ok? && r.status == 200 && |r.body| == |db.newsletters| &&
      forall i :: 0 <= i < |db.newsletters| ==>
        var d := db.newsletters[i];
        r.body[i] == NewsletterOut(IdString(d.id), d.body.email, CreatedAtJson(d.createdAt))
  {
    var auth := CurrentAdmin(authorization, decode);
    if auth.Unauthorized? {
      return Err(401, auth.detail);
    }
    var rows := Project(db.newsletters, NewsletterRow);
    r := Ok(200, rows);
  }

  /** `GET /admin/packages`. */
  method ListPackages(db: Database, authorization: Option<string>, decode: string -> Decoded)
    returns (r: Reply<seq<PackageOut>>)
    ensures CurrentAdmin(authorization, decode).Unauthorized? ==>
      r == Err(401, CurrentAdmin(authorization, decode).detail)
    ensures CurrentAdmin(authorization, decode).Authorized? ==>
      r.Ok? && r.status == 200 && |r.body| == |db.packages| &&
      forall i :: 0 <= i < |db.packages| ==>
        var d := db.packages[i];
        r.body[i] == PackageOut(IdString(d.id), d.body.name, d.body.email, d.body.package, d.body.price,
                                d.body.company, d.body.url, d.body.businessType, d.body.notes,
                                CreatedAtJson(d.createdAt))
  {
    var auth := CurrentAdmin(authorization, decode);
    if auth.Unauthorized? {
      return Err(401, auth.detail);
    }
    var rows := Project(db.packages, PackageRow);
    r := Ok(200, rows);
  }

  // ---------------------------------------------------------------------------
  // Deletions
  // ---------------------------------------------------------------------------

  /** The three outcomes every `delete_*` route shares, after authentication:
      an id that is not an ObjectId is a 400, an id no document has is a 404,
      otherwise the document is removed and the reply is an empty 204. */
  ghost predicate DeleteOutcome<R>(auth: Auth, idText: string, before: seq<Doc<R>>, after: seq<Doc<R>>,
                                   r: Reply<Unit>, invalid: string, missing: string)
  {
    match auth
    case Unauthorized(detail) => r == Err(401, detail) && after == before
    case Authorized(_) =>
      match ParseObjectId(idText)
      case None => r == Err(400, invalid) && after == before
      case Some(id) =>
        if HasId(before, id) then r == Ok(204, Unit) && after == RemoveFirst(before, id)
        else r == Err(404, missing) && after == before
  }

  /** What the 204 outcome leaves: one document fewer, none with that id,
      every other document still there. */
  lemma DeleteRemovesExactlyOne<R>(before: seq<Doc<R>>, after: seq<Doc<R>>, id: Id, nextId: Id)
    requires IdsWellFormed(before, nextId) && HasId(before, id) && after == RemoveFirst(before, id)
    ensures |after| == |before| - 1 && !HasId(after, id)
    ensures forall d :: d in before && d.id != id ==> d in after
  {
    RemoveFirstUnique(before, id, nextId);
  }

  /** The common body of the six routes: `delete_one({"_id": oid})`. */
  method Remove<R>(docs: seq<Doc<R>>, auth: Auth, idText: string, nextId: Id, invalid: string, missing: string)
    returns (r: Reply<Unit>, after: seq<Doc<R>>)
    requires IdsWellFormed(docs, nextId)
    ensures DeleteOutcome(auth, idText, docs, after, r, invalid, missing)
    ensures IdsWellFormed(after, nextId)
    ensures forall key: R -> string :: KeysUnique(docs, key) ==> KeysUnique(after, key)
    ensures forall key: R -> (string, string) :: KeysUnique(docs, key) ==> KeysUnique(after, key)
  {
    after := docs;
    if auth.Unauthorized? {
      return Err(401, auth.detail), after;
    }
    var oid := ParseObjectId(idText);
    if oid.None? {
      return Err(400, invalid), after;
    }
    if !HasId(docs, oid.value) {
      return Err(404, missing), after;
    }
    RemoveFirstUnique(docs, oid.value, nextId);
    forall key: R -> string | KeysUnique(docs, key) ensures KeysUnique(RemoveFirst(docs, oid.value), key) {
      RemoveFirstKeepsKeysUnique(docs, oid.value, key);
    }
    forall key: R -> (string, string) | KeysUnique(docs, key)
      ensures KeysUnique(RemoveFirst(docs, oid.value), key)
    {
      RemoveFirstKeepsKeysUnique(docs, oid.value, key);
    }
    after := RemoveFirst(docs, oid.value);
    r := Ok(204, Unit);
  }

  /** `DELETE /admin/users/{user_id}`. */
  method DeleteUser(db: Database, authorization: Option<string>, decode: string -> Decoded, userId: string)
    returns (r: Reply<Unit>)
    requires db.Valid()
    modifies db`users
    ensures db.Valid()
    ensures DeleteOutcome(CurrentAdmin(authorization, decode), userId, old(db.users), db.users, r,
                          "Invalid user id", "User not found")
  {
    r, db.users := Remove(db.users, CurrentAdmin(authorization, decode), userId, db.nextId,
                          "Invalid user id", "User not found");
  }

  /** `DELETE /admin/meetings/{meeting_id}`. */
  method DeleteMeeting(db: Database, authorization: Option<string>, decode: string -> Decoded, meetingId: string)
    returns (r: Reply<Unit>)
    requires db.Valid()
    modifies db`meetings
    ensures db.Valid()
    ensures DeleteOutcome(CurrentAdmin(authorization, decode), meetingId, old(db.meetings), db.meetings, r,
                          "Invalid meeting id", "Meeting not found")
  {
    r, db.meetings := Remove(db.meetings, CurrentAdmin(authorization, decode), meetingId, db.nextId,
                             "Invalid meeting id", "Meeting not found");
  }

  /** `DELETE /admin/audits/{audit_id}`. */
  method DeleteAudit(db: Database, authorization: Option<string>, decode: string -> Decoded, auditId: string)
    returns (r: Reply<Unit>)
    requires db.Valid()
    modifies db`audits
    ensures db.Valid()
    ensures DeleteOutcome(CurrentAdmin(authorization, decode), auditId, old(db.audits), db.audits, r,
                          "Invalid audit id", "Audit not found")
  {
    r, db.audits := Remove(db.audits, CurrentAdmin(authorization, decode), auditId, db.nextId,
                           "Invalid audit id", "Audit not found");
  }

  /** `DELETE /admin/contacts/{contact_id}`. */
  method DeleteContact(db: Database, authorization: Option<string>, decode: string -> Decoded, contactId: string)
    returns (r: Reply<Unit>)
    requires db.Valid()
    modifies db`contacts
    ensures db.Valid()
    ensures DeleteOutcome(CurrentAdmin(authorization, decode), contactId, old(db.contacts), db.contacts, r,
                          "Invalid contact id", "Contact not found")
  {
    r, db.contacts := Remove(db.contacts, CurrentAdmin(authorization, decode), contactId, db.nextId,
                             "Invalid contact id", "Contact not found");
  }

  /** `DELETE /admin/newsletters/{nid}`. */
  method DeleteNewsletter(db: Database, authorization: Option<string>, decode: string -> Decoded, nid: string)
    returns (r: Reply<Unit>)
    requires db.Valid()
    modifies db`newsletters
    ensures db.Valid()
    ensures DeleteOutcome(CurrentAdmin(authorization, decode), nid, old(db.newsletters), db.newsletters, r,
                          "Invalid id", "Not found")
  {
    r, db.newsletters := Remove(db.newsletters, CurrentAdmin(authorization, decode), nid, db.nextId,
                                "Invalid id", "Not found");
  }

  /** `DELETE /admin/packages/{package_id}`. */
  method DeletePackage(db: Database, authorization: Option<string>, decode: string -> Decoded, packageId: string)
    returns (r: Reply<Unit>)
    requires db.Valid()
    modifies db`packages
    ensures db.Valid()
    ensures DeleteOutcome(CurrentAdmin(authorization, decode), packageId, old(db.packages), db.packages, r,
                          "Invalid package id", "Package not found")
  {
    r, db.packages := Remove(db.packages, CurrentAdmin(authorization, decode), packageId, db.nextId,
                             "Invalid package id", "Package not found");
  }

  // ---------------------------------------------------------------------------
  // User update
  // ---------------------------------------------------------------------------

  /** The request body: every field may be left out. */
  datatype UserUpdate = UserUpdate(username: Option<string>, email: Option<string>, password: Option<string>)

  /** The `$set` document: the fields given, the password already hashed. */
  datatype SetFields = SetFields(username: Option<string>, email: Option<string>, password: Option<PasswordHash>)

  /** How building the update document ends. */
  datatype Built = PasswordTooLongRefused | NothingToUpdate | Update(fields: SetFields)

  /** The update document the handler builds: only the fields given enter
      it, the password hashed; an over-long password stops the build, and an
      empty document is refused after it. */
  function BuildUpdate(payload: UserUpdate): (b: Built)
    ensures payload.password.Some? && PasswordTooLong(payload.password.value) <==> b == PasswordTooLongRefused
    ensures b == NothingToUpdate <==> payload == UserUpdate(None, None, None)
    ensures b.Update? ==> b.fields.username == payload.username && b.fields.email == payload.email
    ensures b.Update? ==> b.fields.password == if payload.password.None? then None
                                               else Some(Hash(payload.password.value))
  {
    if payload.password.Some? && PasswordTooLong(payload.password.value) then PasswordTooLongRefused
    else
      var fields := SetFields(payload.username, payload.email,
                              if payload.password.None? then None else Some(Hash(payload.password.value)));
      if fields == SetFields(None, None, None) then NothingToUpdate else Update(fields)
  }

  /** `$set`: the given fields replace the stored ones, the rest stay. */
  function Apply(fields: SetFields, u: User): (v: User)
    ensures v.username == (if fields.username.Some? then fields.username.value else u.username)
    ensures v.email == (if fields.email.Some? then fields.email.value else u.email)
    ensures v.password == (if fields.password.Some? then fields.password.value else u.password)
  {
    User(if fields.username.Some? then fields.username.value else u.username,
         if fields.email.Some? then fields.email.value else u.email,
         if fields.password.Some? then fields.password.value else u.password)
  }

  /** An update built from a payload stores a password only as the hash of
      the one given, and leaves alone the fields the payload left out. */
  lemma UpdateKeepsOmittedFields(payload: UserUpdate, u: User)
    requires BuildUpdate(payload).Update?
    ensures var v := Apply(BuildUpdate(payload).fields, u);
      && (payload.username.None? ==> v.username == u.username)
      && (payload.email.None? ==> v.email == u.email)
      && (payload.password.None? ==> v.password == u.password)
      && (payload.password.Some? ==> v.password == Hash(payload.password.value))
  {
  }

  /** `PUT /admin/users/{user_id}`: 401, then 400 for a malformed id before
      the payload is looked at, then 400 for an over-long password, then 400
      for an empty update, then 404 for an id no user has; otherwise the first
      user with that id is updated and returned without its password, under
      the stored id's own lower-case text. */
  method UpdateUser(db: Database, authorization: Option<string>, decode: string -> Decoded,
                    userId: string, payload: UserUpdate)
    returns (r: Reply<UserOut>)
    requires db.Valid()
    modifies db`users
    ensures db.Valid()
    ensures match CurrentAdmin(authorization, decode)
      case Unauthorized(detail) => r == Err(401, detail) && db.users == old(db.users)
      case Authorized(_) =>
        match ParseObjectId(userId)
        case None => r == Err(400, "Invalid user id") && db.users == old(db.users)
        case Some(id) =>
          match BuildUpdate(payload)
          case PasswordTooLongRefused => r == Err(400, "Password too long") && db.users == old(db.users)
          case NothingToUpdate => r == Err(400, "Nothing to update") && db.users == old(db.users)
          case Update(fields) =>
            if !HasId(old(db.users), id) then r == Err(404, "User not found") && db.users == old(db.users)
            else
              var k := IndexOfId(old(db.users), id);
              var d := old(db.users)[k];
              var updated := Doc(d.id, d.createdAt, Apply(fields, d.body));
              && db.users == old(db.users)[k := updated]
              && r == Ok(200, UserOut(updated.body.username, updated.body.email, IdString(d.id)))
  {
    var auth := CurrentAdmin(authorization, decode);
    if auth.Unauthorized? {
      return Err(401, auth.detail);
    }
    var oid := ParseObjectId(userId);
    if oid.None? {
      return Err(400, "Invalid user id");
    }
    var built := BuildUpdate(payload);
    if built.PasswordTooLongRefused? {
      return Err(400, "Password too long");
    }
    if built.NothingToUpdate? {
      return Err(400, "Nothing to update");
    }
    if !HasId(db.users, oid.value) {
      return Err(404, "User not found");
    }
    var k := IndexOfId(db.users, oid.value);
    var d := db.users[k];
    var updated := Doc(d.id, d.createdAt, Apply(built.fields, d.body));
    db.users := db.users[k := updated];
    assert IdsWellFormed(db.users, db.nextId) by {
      forall i | 0 <= i < |db.users| ensures db.users[i].id == old(db.users)[i].id { }
    }
    r := Ok(200, UserOut(updated.body.username, updated.body.email, IdString(d.id)));
  }
}
