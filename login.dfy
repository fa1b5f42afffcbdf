/**
 * The user login route and its in-memory attempt counter: a per-email count
 * that every attempt against an existing user increments, that a correct
 * password resets, and that turns the attempt reaching `MaxAttempts` into an
 * automatic login (the documented soft-lockout bypass).
 */
module Login {
  import opened Common
  import opened Store

  const MaxAttempts: nat := 5

  /** What one attempt against an existing user decides. */
  datatype Verdict = Accepted | AutoAccepted | Rejected(remaining: nat)

  /** The body of `/login`: `success` is true for the first two. */
  datatype LoginReply =
    | Welcome(username: string, token: Token)
    | AutoLogin(username: string, token: Token)
    | UserNotFound
    | IncorrectPassword(remaining: nat)

  predicate Succeeded(r: LoginReply) {
    r.Welcome? || r.AutoLogin?
  }

  function Message(r: LoginReply): string {
    match r
    case Welcome(u, _) => "Welcome back, " + u + "!"
    case AutoLogin(u, _) => "Auto-login after multiple attempts. Welcome, " + u + "!"
    case UserNotFound => "User not found. Please sign up first."
    case IncorrectPassword(n) => "Incorrect password. " + NatToString(n) + " attempts left before auto-login."
  }

  /** `db.users.find_one({"email": email})`: the position of the first user
      stored under exactly this email. */
  function FindByEmail(users: seq<Doc<User>>, email: string): Option<nat> {
    FindFirst(users, UserEmail, email)
  }

  /** One attempt from a stored count of `prior`: the count is incremented
      first, then the password decides; returns the count left stored and
      the verdict. */
  function Attempt(prior: nat, passwordOk: bool): (r: (nat, Verdict))
    ensures r.0 < MaxAttempts
    ensures r.0 == 0 <==> !r.1.Rejected?
  {
    var count := prior + 1;
    if passwordOk then (0, Accepted)
    else if count >= MaxAttempts then (0, AutoAccepted)
    else (count, Rejected(MaxAttempts - count))
  }

  /** The stored count for a key; a missing entry counts as 0. */
  function Prior(counts: map<string, nat>, key: string): nat {
    if key in counts then counts[key] else 0
  }

  /** The reply a verdict gives; the token's subject is the stored email. */
  function ReplyFor(v: Verdict, user: User, now: Time): LoginReply {
    match v
    case Accepted => Welcome(user.username, CreateAccessToken(user.email, now))
    case AutoAccepted => AutoLogin(user.username, CreateAccessToken(user.email, now))
    case Rejected(n) => IncorrectPassword(n)
  }

  /** Whatever the stored count, an attempt leaves a count below the threshold;
      a rejection always reports between 1 and 4 attempts left, which is what
      is left before the count reaches the threshold. */
  lemma AttemptBounds(prior: nat, passwordOk: bool)
    ensures Attempt(prior, passwordOk).0 < MaxAttempts
    ensures Attempt(prior, passwordOk).1.Rejected? ==>
      var n := Attempt(prior, passwordOk).1.remaining;
      1 <= n <= MaxAttempts - 1 && n == MaxAttempts - Attempt(prior, passwordOk).0
    ensures passwordOk ==> Attempt(prior, passwordOk) == (0, Accepted)
    ensures Attempt(prior, passwordOk).1 == AutoAccepted <==> !passwordOk && prior + 1 >= MaxAttempts
  {
  }

  /** A run of attempts from a stored count: the final count and each verdict. */
  function Replay(prior: nat, passwordOks: seq<bool>): (nat, seq<Verdict>) {
    if passwordOks == [] then (prior, [])
    else
      var (count, verdicts) := Replay(prior, passwordOks[..|passwordOks| - 1]);
      var (after, v) := Attempt(count, passwordOks[|passwordOks| - 1]);
      (after, verdicts + [v])
  }

  function WrongAttempts(k: nat): (s: seq<bool>)
    ensures |s| == k && forall i :: 0 <= i < k ==> !s[i]
  {
    seq(k, i => false)
  }

  /** Consecutive wrong passwords from a fresh counter: after k of them the
      count is k mod 5, and the i-th attempt (counting from 1) is an automatic
      login exactly when i is a multiple of 5; every other one reports
      5 - (i mod 5) attempts left. So the fifth wrong attempt logs in. */
  lemma {:induction false} WrongRun(k: nat)
    ensures Replay(0, WrongAttempts(k)).0 == k % MaxAttempts
    ensures |Replay(0, WrongAttempts(k)).1| == k
    ensures forall i :: 0 <= i < k ==>
      Replay(0, WrongAttempts(k)).1[i] ==
        if (i + 1) % MaxAttempts == 0 then AutoAccepted else Rejected(MaxAttempts - (i + 1) % MaxAttempts)
  {
    if k > 0 {
      WrongRun(k - 1);
      assert WrongAttempts(k)[..k - 1] == WrongAttempts(k - 1);
    }
  }

  /** The concrete sequence the route produces for five wrong passwords in a
      row against an account with no stored count. */
  lemma FifthWrongAttemptLogsIn()
    ensures Replay(0, WrongAttempts(5)) ==
      (0, [Rejected(4), Rejected(3), Rejected(2), Rejected(1), AutoAccepted])
  {
    WrongRun(5);
    var verdicts := Replay(0, WrongAttempts(5)).1;
    assert verdicts[0] == Rejected(4) && verdicts[1] == Rejected(3) && verdicts[2] == Rejected(2);
    assert verdicts[3] == Rejected(1) && verdicts[4] == AutoAccepted;
    assert verdicts == [Rejected(4), Rejected(3), Rejected(2), Rejected(1), AutoAccepted];
    assert Replay(0, WrongAttempts(5)).0 == 0;
  }

  /** The in-process `login_attempts` dictionary and the route that updates it. */
  class LoginAttempts {
    var counts: map<string, nat>

    /** Every stored count stays below the threshold between calls. */
    ghost predicate Valid()
      reads this
    {
      forall e :: e in counts ==> counts[e] < MaxAttempts
    }

    constructor ()
      ensures Valid() && counts == map[]
    {
      counts := map[];
    }

    /** `POST /login`. The lower-cased email is both the lookup key and the
        counter key; an unknown email leaves every counter alone; otherwise
        only that email's counter changes, to what `Attempt` says. */
    method Login(db: Database, email: string, password: string, now: Time) returns (r: LoginReply)
      requires Valid()
      modifies this
      ensures Valid()
      ensures var key := Lower(email);
        match FindByEmail(db.users, key)
        case None => r == UserNotFound && counts == old(counts)
        case Some(k) =>
          var user := db.users[k].body;
          var (after, verdict) := Attempt(Prior(old(counts), key), Verify(password, user.password));
          counts == old(counts)[key := after] && r == ReplyFor(verdict, user, now)
    {
      var key := Lower(email);
      var found := FindByEmail(db.users, key);
      if found.None? {
        return UserNotFound;
      }
      var user := db.users[found.value].body;

      if key !in counts {
        counts := counts[key := 0];
      }
      counts := counts[key := counts[key] + 1];

      if Verify(password, user.password) {
        counts := counts[key := 0];
        return Welcome(user.username, CreateAccessToken(user.email, now));
      }

      if counts[key] >= MaxAttempts {
        counts := counts[key := 0];
        return AutoLogin(user.username, CreateAccessToken(user.email, now));
      }

      var remaining := MaxAttempts - counts[key];
      return IncorrectPassword(remaining);
    }
  }
}
