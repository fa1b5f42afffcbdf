/**
 * `POST /signup`: an email that is already registered gets a soft notice with
 * status 200, not an error; otherwise the password must fit bcrypt's 72-byte
 * limit, and the user is stored with the password hashed. The email is stored
 * exactly as given, while the login route looks users up by the lower-cased
 * email.
 */
module Signup {
  import opened Common
  import opened Store
  import opened Login

  const AlreadyRegistered: string := "Email already registered. Please login."
  const PasswordTooLongDetail: string := "Password too long"
  const SignedUp: string := "Signup successful!"

  /** The two 200 bodies: `{"alreadyExists": true, "message"}` and
      `{"success": true, "message", "user_id"}`. */
  datatype SignupBody = AlreadyExists(message: string) | Created(message: string, userId: string)


  /** `db.users.find_one({"email": email})` is not empty. */
  predicate Registered(users: seq<Doc<User>>, email: string) {
    KeyTaken(users, UserEmail, email)
  }

  /** The handler. Unlike the other forms, the two `create_task` calls are not
      guarded, so a scheduling failure surfaces as a 500 after the user has
      been stored. */
  method Signup(db: Database, username: string, email: string, password: string, now: Time,
                operator: string, insertFails: bool, scheduleFails: bool)
    returns (r: Reply<SignupBody>, jobs: seq<Job>)
    requires db.Valid()
    modifies db`users, db`nextId
    ensures db.Valid()
    ensures
      if Registered(old(db.users), email) then
        r == Ok(200, AlreadyExists(AlreadyRegistered)) && db.users == old(db.users) && jobs == []
      else if PasswordTooLong(password) then
        r == Err(400, PasswordTooLongDetail) && db.users == old(db.users) && jobs == []
      else if insertFails then
        r == Err(500, InternalError) && db.users == old(db.users) && jobs == []
      else
        && db.users == old(db.users) + [Doc(old(db.nextId), Some(BsonTime(now)), User(username, email, Hash(password)))]
        && jobs == Scheduled(NotifyBoth(email, operator), scheduleFails)
        && r == if scheduleFails then Err(500, InternalError)
                else Ok(200, Created(SignedUp, IdString(old(db.nextId))))
  {
    if Registered(db.users, email) {
      return Ok(200, AlreadyExists(AlreadyRegistered)), [];
    }
    if PasswordTooLong(password) {
      return Err(400, PasswordTooLongDetail), [];
    }
    var outcome := db.InsertUser(User(username, email, Hash(password)), now, insertFails);
    if !outcome.Inserted? {
      return Err(500, InternalError), [];
    }
    jobs := Scheduled(NotifyBoth(email, operator), scheduleFails);
    if scheduleFails {
      r := Err(500, InternalError);
    } else {
      r := Ok(200, Created(SignedUp, IdString(outcome.id)));
    }
  }

  /** A user signed up with an email in lower case is found by the login
      route, and the password given at signup is accepted: the first login
      attempt is a plain welcome whatever the stored counter. */
  lemma LowerCaseSignupLogsIn(users: seq<Doc<User>>, id: Id, now: Time, username: string,
                              email: string, password: string, prior: nat)
    requires !Registered(users, email) && Lower(email) == email
    ensures var after := users + [Doc(id, Some(BsonTime(now)), User(username, email, Hash(password)))];
      && FindByEmail(after, Lower(email)) == Some(|users|)
      && Attempt(prior, Verify(password, after[|users|].body.password)) == (0, Accepted)
  {
    var after := users + [Doc(id, Some(BsonTime(now)), User(username, email, Hash(password)))];
    forall i | 0 <= i < |users| ensures after[i].body.email != email {
      assert after[i] == users[i];
      assert UserEmail(users[i].body) != email;
    }
    FindsFirstMatch(after, email, |users|);
  }

  /** A user signed up with a capital letter in the email is never found by
      the login route, unless another user was stored under the lower-cased
      spelling: the login answers "User not found". */
  lemma MixedCaseSignupNotFound(users: seq<Doc<User>>, id: Id, now: Time, username: string,
                                email: string, password: string)
    requires !Registered(users, Lower(email)) && Lower(email) != email
    ensures FindByEmail(users + [Doc(id, Some(BsonTime(now)), User(username, email, Hash(password)))], Lower(email)) == None
  {
    var after := users + [Doc(id, Some(BsonTime(now)), User(username, email, Hash(password)))];
    forall i | 0 <= i < |after| ensures after[i].body.email != Lower(email) {
      if i < |users| {
        assert after[i] == users[i];
        assert UserEmail(users[i].body) != Lower(email);
      }
    }
  }

  /** `FindByEmail` returns the first position holding the email. */
  lemma FindsFirstMatch(users: seq<Doc<User>>, email: string, k: nat)
    requires k < |users| && users[k].body.email == email
    requires forall i :: 0 <= i < k ==> users[i].body.email != email
    ensures FindByEmail(users, email) == Some(k)
  {
  }
}
