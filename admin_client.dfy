/**
 * The logic of the admin page script: HTML escaping of the values it renders,
 * the request helper that attaches the stored token and forgets it on a 401,
 * the user-edit payload built from the prompts, and the display form of
 * `created_at`.
 */
module AdminClient {
  import opened Common
  import opened Store
  import opened Admin

  // ---------------------------------------------------------------------------
  // escapeHtml
  // ---------------------------------------------------------------------------

  predicate IsSpecial(c: char) {
    c == '&' || c == '<' || c == '>' || c == '"' || c == '\''
  }

  /** The replacement of one character. */
  function EscapeChar(c: char): (s: string)
    ensures !IsSpecial(c) ==> s == [c]
    ensures IsSpecial(c) ==> |s| >= 4 && s[0] == '&' && s[|s| - 1] == ';'
  {
    match c
    case '&' => "&amp;"
    case '<' => "&lt;"
    case '>' => "&gt;"
    case '"' => "&quot;"
    case '\'' => "&#39;"
    case _ => [c]
  }

  /** `escapeHtml(s)`: one pass of `replace(/[&<>"']/g, ...)`. */
  function EscapeHtml(s: string): (r: string)
    ensures |r| >= |s|
    ensures forall i :: 0 <= i < |r| ==> r[i] != '<' && r[i] != '>' && r[i] != '"' && r[i] != '\''
  {
    if s == [] then [] else EscapeChar(s[0]) + EscapeHtml(s[1..])
  }

  /** Reading the five entities back. */
  function Unescape(s: string): string
    decreases |s|
  {
    if s == [] then []
    else if "&amp;" <= s then "&" + Unescape(s[5..])
    else if "&lt;" <= s then "<" + Unescape(s[4..])
    else if "&gt;" <= s then ">" + Unescape(s[4..])
    else if "&quot;" <= s then "\"" + Unescape(s[6..])
    else if "&#39;" <= s then "'" + Unescape(s[5..])
    else [s[0]] + Unescape(s[1..])
  }

  lemma UnescapeChar(c: char, rest: string)
    ensures Unescape(EscapeChar(c) + rest) == [c] + Unescape(rest)
  {
    if IsSpecial(c) {
      UnescapeEntity(c, rest);
    } else {
      var s := [c] + rest;
      assert s[0] == c && s[1..] == rest;
      assert !("&amp;" <= s) && !("&lt;" <= s) && !("&gt;" <= s) && !("&quot;" <= s) && !("&#39;" <= s);
    }
  }

  lemma UnescapeEntity(c: char, rest: string)
    requires IsSpecial(c)
    ensures Unescape(EscapeChar(c) + rest) == [c] + Unescape(rest)
  {
    var e := EscapeChar(c);
    var s := e + rest;
    assert e <= s && s[|e|..] == rest;
    if c != '&' {
      assert s[1] == e[1] != 'a' && !("&amp;" <= s);
    }
    if c == '"' || c == '\'' {
      assert !("&lt;" <= s) && !("&gt;" <= s);
    }
    if c == '\'' {
      assert s[1] == '#' && !("&quot;" <= s);
    }
  }

  /** Escaping loses nothing: the entities read back give the input. */
  lemma {:induction false} EscapeRoundTrip(s: string)
    ensures Unescape(EscapeHtml(s)) == s
  {
    if s != [] {
      UnescapeChar(s[0], EscapeHtml(s[1..]));
      EscapeRoundTrip(s[1..]);
    }
  }

  /** Text without the five special characters is left as it is. */
  lemma {:induction false} EscapePlain(s: string)
    requires forall i :: 0 <= i < |s| ==> !IsSpecial(s[i])
    ensures EscapeHtml(s) == s
  {
    if s != [] {
      EscapePlain(s[1..]);
    }
  }

  /** Escaping is a single pass and not idempotent. */
  lemma EscapeNotIdempotent()
    ensures EscapeHtml("&") == "&amp;"
    ensures EscapeHtml(EscapeHtml("&")) == "&amp;amp;"
  {
    assert EscapeHtml("&") == EscapeChar('&') + EscapeHtml("");
    var once := "&amp;";
    assert once[1..] == "amp;" && "amp;"[1..] == "mp;" && "mp;"[1..] == "p;" && "p;"[1..] == ";";
    assert EscapeHtml(";") == ";" by { assert ";"[1..] == ""; }
  }

  // ---------------------------------------------------------------------------
  // apiFetch
  // ---------------------------------------------------------------------------

  const ContentType: string := "Content-Type"
  const Authorization: string := "Authorization"
  const Json: string := "application/json"

  /** The headers `apiFetch` sends: a JSON content type unless one is already
      set (an empty value counts as unset) or the body is form data, and a
      bearer header exactly when a non-empty token is stored. Other headers
      pass through. */
  function RequestHeaders(headers: map<string, string>, formData: bool, token: Option<string>)
    : (h: map<string, string>)
    ensures (ContentType !in headers || headers[ContentType] == "") && !formData ==> ContentType in h && h[ContentType] == Json
    ensures ContentType in headers && headers[ContentType] != "" ==> ContentType in h && h[ContentType] == headers[ContentType]
    ensures formData && ContentType !in headers ==> ContentType !in h
    ensures token.Some? && token.value != "" ==> Authorization in h && h[Authorization] == BearerPrefix + token.value
    ensures token.None? || token.value == "" ==>
      (Authorization in h <==> Authorization in headers) && (Authorization in h ==> h[Authorization] == headers[Authorization])
    ensures forall k :: k in headers && k != ContentType && k != Authorization ==> k in h && h[k] == headers[k]
    ensures forall k :: k in h ==> k in headers || k == ContentType || k == Authorization
  {
    var withType :=
      if (ContentType !in headers || headers[ContentType] == "") && !formData then headers[ContentType := Json]
      else headers;
    if token.Some? && token.value != "" then withType[Authorization := BearerPrefix + token.value] else withType
  }

  /** A stored token, once sent, is the token the server decodes, provided it
      has no blank (a signed token in compact form has none). */
  lemma SentTokenIsDecoded(headers: map<string, string>, formData: bool, token: string, decode: string -> Decoded)
    requires token != "" && forall i :: 0 <= i < |token| ==> token[i] != ' '
    ensures var h := RequestHeaders(headers, formData, Some(token));
      Authorization in h
      && CurrentAdmin(Some(h[Authorization]), decode) ==
         match decode(token)
         case Payload(Some(name)) => Authorized(name)
         case _ => Unauthorized(InvalidToken)
  {
    BearerRoundTrip(token);
  }

  /** How a call ends: the response, or the `Unauthorized` error thrown after
      the session was cleared. */
  datatype FetchResult = Response(status: int) | SessionExpired

  /** The page's `localStorage` entry `admin_token`. */
  class Session {
    var token: Option<string>

    constructor (stored: Option<string>)
      ensures token == stored
    {
      token := stored;
    }

    /** `apiFetch(path, opts)`. `respond` stands for the server: it maps the
        headers sent to the response status. */
    method ApiFetch(headers: map<string, string>, formData: bool, respond: map<string, string> -> int)
      returns (sent: map<string, string>, result: FetchResult)
      modifies this
      ensures sent == RequestHeaders(headers, formData, old(token))
      ensures respond(sent) == 401 ==> result == SessionExpired && token == None
      ensures respond(sent) != 401 ==> result == Response(respond(sent)) && token == old(token)
    {
      sent := RequestHeaders(headers, formData, token);
      var status := respond(sent);
      if status == 401 {
        token := None;
        return sent, SessionExpired;
      }
      result := Response(status);
    }
  }

  // ---------------------------------------------------------------------------
  // The user-edit dialog
  // ---------------------------------------------------------------------------

  const EmptyPassword: string := "Password cannot be empty."
  const LongPassword: string := "Password too long (max 72 bytes). Choose a shorter password."
  const NoChanges: string := "No changes made."

  /** How `openEditModal` ends: a prompt was cancelled, an alert was shown
      and nothing sent, or the payload was sent with `PUT`. */
  datatype EditOutcome = Cancelled | Alerted(message: string) | Send(payload: UserUpdate)

  /** `openEditModal`, given what the prompts return (`None` for Cancel) and
      whether the password confirm was accepted. */
  function EditPayload(currentUsername: string, currentEmail: string,
                       newUsername: Option<string>, newEmail: Option<string>,
                       changePassword: bool, newPassword: Option<string>): (o: EditOutcome)
    ensures newUsername.None? || newEmail.None? ==> o == Cancelled
    ensures o.Send? ==>
      && (o.payload.username.Some? <==> newUsername.value != currentUsername)
      && (o.payload.username.Some? ==> o.payload.username.value == newUsername.value)
      && (o.payload.email.Some? <==> newEmail.value != currentEmail)
      && (o.payload.email.Some? ==> o.payload.email.value == newEmail.value)
      && (o.payload.password.Some? <==> changePassword)
      && (changePassword ==> newPassword.Some? && o.payload.password.value == newPassword.value)
    ensures o == Cancelled <==> newUsername.None? || newEmail.None? || (changePassword && newPassword.None?)
    ensures o == Alerted(EmptyPassword) <==>
      newUsername.Some? && newEmail.Some? && changePassword && newPassword == Some("")
    ensures o == Alerted(LongPassword) <==>
      && newUsername.Some? && newEmail.Some? && changePassword && newPassword.Some?
      && newPassword.value != "" && PasswordTooLong(newPassword.value)
    ensures o == Alerted(NoChanges) <==>
      newUsername == Some(currentUsername) && newEmail == Some(currentEmail) && !changePassword
    ensures
      (&& newUsername.Some? && newEmail.Some?
       && (changePassword ==> newPassword.Some? && newPassword.value != "" && !PasswordTooLong(newPassword.value)))
      ==> (o.Send? <==> newUsername.value != currentUsername || newEmail.value != currentEmail || changePassword)
  {
    if newUsername.None? || newEmail.None? then Cancelled
    else if changePassword && newPassword.None? then Cancelled
    else if changePassword && newPassword.value == "" then Alerted(EmptyPassword)
    else if changePassword && PasswordTooLong(newPassword.value) then Alerted(LongPassword)
    else
      var payload := UserUpdate(
        if newUsername.value != currentUsername then Some(newUsername.value) else None,
        if newEmail.value != currentEmail then Some(newEmail.value) else None,
        if changePassword then Some(newPassword.value) else None);
      if payload == UserUpdate(None, None, None) then Alerted(NoChanges) else Send(payload)
  }

  /** A payload the dialog sends is never refused by the server for its
      password length or for being empty; a password it sends is not empty. */
  lemma DialogPayloadAccepted(currentUsername: string, currentEmail: string,
                              newUsername: Option<string>, newEmail: Option<string>,
                              changePassword: bool, newPassword: Option<string>)
    requires EditPayload(currentUsername, currentEmail, newUsername, newEmail, changePassword, newPassword).Send?
    ensures var p := EditPayload(currentUsername, currentEmail, newUsername, newEmail, changePassword, newPassword).payload;
      BuildUpdate(p).Update? && (p.password.Some? ==> p.password.value != "")
  {
  }

  /** With no field changed and no new password, nothing is sent. */
  lemma UnchangedSendsNothing(currentUsername: string, currentEmail: string)
    ensures EditPayload(currentUsername, currentEmail, Some(currentUsername), Some(currentEmail), false, None)
      == Alerted(NoChanges)
  {
  }

  // ---------------------------------------------------------------------------
  // created_at as displayed
  // ---------------------------------------------------------------------------

  /** `s.replace("T", " ")`: a string pattern replaces its first occurrence. */
  function ReplaceFirstT(s: string): (r: string)
    ensures |r| == |s|
    ensures forall i :: 0 <= i < |s| ==> r[i] == s[i] || (s[i] == 'T' && r[i] == ' ')
  {
    if s == [] then []
    else if s[0] == 'T' then [' '] + s[1..]
    else [s[0]] + ReplaceFirstT(s[1..])
  }

  /** `s.split(".")[0]`: the text before the first dot. */
  function BeforeDot(s: string): (r: string)
    ensures |r| <= |s| && r == s[..|r|]
    ensures forall i :: 0 <= i < |r| ==> r[i] != '.'
  {
    if s == [] || s[0] == '.' then [] else [s[0]] + BeforeDot(s[1..])
  }

  /** `created_at ? created_at.replace("T", " ").split(".")[0] : ""`. */
  function DisplayCreatedAt(createdAt: Option<string>): (r: string)
    ensures createdAt.None? ==> r == ""
    ensures createdAt.Some? ==> |r| <= |createdAt.value|
    ensures forall i :: 0 <= i < |r| ==> r[i] != '.'
  {
    match createdAt
    case None => ""
    case Some(s) => if s == "" then "" else BeforeDot(ReplaceFirstT(s))
  }

  lemma {:induction false} ReplaceFirstTAt(a: string, b: string)
    requires forall i :: 0 <= i < |a| ==> a[i] != 'T'
    ensures ReplaceFirstT(a + "T" + b) == a + " " + b
  {
    if a != [] {
      assert (a + "T" + b)[1..] == a[1..] + "T" + b;
      ReplaceFirstTAt(a[1..], b);
    } else {
      assert a + "T" + b == "T" + b;
    }
  }

  lemma {:induction false} BeforeDotAt(a: string, b: string)
    requires forall i :: 0 <= i < |a| ==> a[i] != '.'
    requires b == [] || b[0] == '.'
    ensures BeforeDot(a + b) == a
  {
    if a != [] {
      assert (a + b)[1..] == a[1..] + b;
      BeforeDotAt(a[1..], b);
    } else {
      assert a + b == b;
    }
  }

  /** What the admin tables show for a stored `created_at`: the date and the
      time to the second, separated by a blank, without the microseconds; a
      document without one shows nothing. */
  lemma DisplayedCreatedAt(createdAt: Option<Time>)
    ensures createdAt.None? ==> DisplayCreatedAt(CreatedAtJson(createdAt)) == ""
    ensures createdAt.Some? ==>
      var t := createdAt.value;
      DisplayCreatedAt(CreatedAtJson(createdAt)) == IsoDate(DateOf(t)) + " " + IsoTime(t % MicrosPerDay)
  {
    if createdAt.Some? {
      var t := createdAt.value;
      DisplayedParts(DateOf(t), t % MicrosPerDay, t % 1_000_000);
    }
  }

  lemma DisplayedParts(d: Date, us: nat, fraction: nat)
    requires ValidDate(d) && us < MicrosPerDay && fraction < 1_000_000
    ensures BeforeDot(ReplaceFirstT(IsoDate(d) + "T" + IsoTime(us) + IsoFraction(fraction)))
         == IsoDate(d) + " " + IsoTime(us)
  {
    var date := IsoDate(d);
    var time := IsoTime(us);
    ClockHasNoDot(time);
    DateHasNoTOrDot(date);
    DisplayOfIso(date, time, IsoFraction(fraction));
  }

  lemma ClockHasNoDot(time: string)
    requires |time| == 8 && time[2] == ':' && time[5] == ':'
    requires forall i :: 0 <= i < 8 && i != 2 && i != 5 ==> IsDigit(time[i])
    ensures forall i :: 0 <= i < |time| ==> time[i] != '.'
  {
    forall i | 0 <= i < |time|
      ensures time[i] != '.'
    {
      if i != 2 && i != 5 {
        assert IsDigit(time[i]);
      }
    }
  }

  lemma DateHasNoTOrDot(date: string)
    requires forall i :: 0 <= i < |date| ==> IsDigit(date[i]) || date[i] == '-'
    ensures forall i :: 0 <= i < |date| ==> date[i] != 'T' && date[i] != '.'
  {
  }

  /** The display of `date + "T" + time + fraction` when the date holds no
      `T` and no dot, the time no dot, and the fraction is empty or starts
      with a dot. */
  lemma DisplayOfIso(date: string, time: string, fraction: string)
    requires forall i :: 0 <= i < |date| ==> date[i] != 'T' && date[i] != '.'
    requires forall i :: 0 <= i < |time| ==> time[i] != '.'
    requires fraction == [] || fraction[0] == '.'
    ensures BeforeDot(ReplaceFirstT(date + "T" + time + fraction)) == date + " " + time
  {
    Regroup(date, time, fraction);
    ReplaceFirstTAt(date, time + fraction);
    NoDot(date, time);
    BeforeDotAt(date + " " + time, fraction);
  }

  lemma Regroup(date: string, time: string, fraction: string)
    ensures date + "T" + time + fraction == date + "T" + (time + fraction)
    ensures date + " " + (time + fraction) == (date + " " + time) + fraction
  {
  }

  lemma NoDot(date: string, time: string)
    requires forall i :: 0 <= i < |date| ==> date[i] != '.'
    requires forall i :: 0 <= i < |time| ==> time[i] != '.'
    ensures forall i :: 0 <= i < |date + " " + time| ==> (date + " " + time)[i] != '.'
  {
  }
}
