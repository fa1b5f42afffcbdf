/**
 * Vocabulary shared by every part of the form backend: optional values,
 * HTTP replies, time, the Gregorian calendar, text helpers that mirror the
 * Python and JavaScript string operations the handlers use, and the symbolic
 * stand-ins for password hashing, access tokens and notification jobs.
 */
module Common {

  datatype Option<+T> = None | Some(value: T)

  /** The outcome of one HTTP route: a success status with its JSON body, or
      the status and `detail` string of an `HTTPException`. */
  datatype Reply<+T> = Ok(status: int, body: T) | Err(status: int, detail: string)

  /** The empty body of a 204 response. */
  datatype Unit = Unit

  /** The `detail` FastAPI gives an exception that no handler caught. */
  const InternalError: string := "Internal Server Error"

  // ---------------------------------------------------------------------------
  // Time: `datetime.utcnow()` has microsecond resolution, so an instant is the
  // number of microseconds since 0001-01-01T00:00:00, the earliest instant a
  // `datetime` can hold.
  // ---------------------------------------------------------------------------

  type Time = nat

  const MicrosPerMinute: int := 60_000_000
  const MicrosPerHour: int := 60 * MicrosPerMinute
  const MicrosPerDay: int := 24 * MicrosPerHour
  const MicrosPerMilli: int := 1000

  /** What the store keeps of a `datetime`: a BSON date counts whole
      milliseconds, so pymongo drops the sub-millisecond part of every instant
      it writes, and of every instant a query compares against. */
  function BsonTime(t: int): (s: int)
    ensures s % MicrosPerMilli == 0 && s <= t < s + MicrosPerMilli
    ensures 0 <= t ==> 0 <= s
  {
    t - t % 1000
  }

  /** Comparing with a floored instant is comparing whole milliseconds. */
  lemma {:induction false} BsonCompare(c: int, v: int)
    ensures v >= BsonTime(c) <==> c / MicrosPerMilli <= v / MicrosPerMilli
  {
    var q, w := c / 1000, v / 1000;
    assert c == 1000 * q + c % 1000 && v == 1000 * w + v % 1000;
    assert BsonTime(c) == 1000 * q;
    if w >= q {
      assert 1000 * w >= 1000 * q;
    } else {
      assert 1000 * w + 1000 <= 1000 * q;
    }
  }

  /** A day is a whole number of milliseconds: flooring the instant a day
      earlier is flooring the instant, then going back a day. */
  lemma BsonDayEarlier(t: int)
    ensures BsonTime(t - MicrosPerDay) == BsonTime(t) - MicrosPerDay
  {
    assert MicrosPerDay == 1000 * 86_400_000;
    assert (t - 1000 * 86_400_000) % 1000 == t % 1000;
  }

  // ---------------------------------------------------------------------------
  // Gregorian calendar (proleptic, as both Python's datetime and JavaScript's
  // Date use it). Months are numbered 1..12 here.
  // ---------------------------------------------------------------------------

  predicate IsLeapYear(year: int) {
    year % 4 == 0 && (year % 100 != 0 || year % 400 == 0)
  }

  function DaysInMonth(year: int, month: int): (n: nat)
    requires 1 <= month <= 12
    ensures 28 <= n <= 31
    ensures n == 29 <==> month == 2 && IsLeapYear(year)
  {
    if month == 2 then (if IsLeapYear(year) then 29 else 28)
    else if month == 4 || month == 6 || month == 9 || month == 11 then 30
    else 31
  }

  /** The days of `month` and of every later month of `year`. */
  function DaysFrom(year: int, month: int): (n: nat)
    requires 1 <= month <= 12
    ensures n >= DaysInMonth(year, month)
    decreases 12 - month, year
  {
    if month == 12 then DaysInMonth(year, 12) else DaysInMonth(year, month) + DaysFrom(year, month + 1)
  }

  function DaysInYear(year: int): nat {
    if IsLeapYear(year) then 366 else 365
  }

  /** A year's days are the days of its twelve months. */
  lemma DaysInYearByMonths(year: int)
    ensures DaysFrom(year, 1) == DaysInYear(year)
  {
    var leap := if IsLeapYear(year) then 1 else 0;
    assert DaysFrom(year, 12) == 31;
    assert DaysFrom(year, 11) == 61;
    assert DaysFrom(year, 10) == 92;
    assert DaysFrom(year, 9) == 122;
    assert DaysFrom(year, 8) == 153;
    assert DaysFrom(year, 7) == 184;
    assert DaysFrom(year, 6) == 214;
    assert DaysFrom(year, 5) == 245;
    assert DaysFrom(year, 4) == 275;
    assert DaysFrom(year, 3) == 306;
    assert DaysFrom(year, 2) == 334 + leap;
  }

  /** A calendar date: year, month 1..12, day of the month. */
  datatype Date = Date(year: int, month: int, day: int)

  predicate ValidDate(d: Date) {
    d.year >= 1 && 1 <= d.month <= 12 && 1 <= d.day <= DaysInMonth(d.year, d.month)
  }

  /** The month and day of the `n`-th day (from 0) of the months of `year`
      from `month` on. */
  function MonthAndDay(year: int, month: int, n: nat): (d: Date)
    requires 1 <= month <= 12 && n < DaysFrom(year, month)
    ensures d.year == year && month <= d.month <= 12 && 1 <= d.day <= DaysInMonth(year, d.month)
    decreases 12 - month, year
  {
    if n < DaysInMonth(year, month) then Date(year, month, n + 1)
    else MonthAndDay(year, month + 1, n - DaysInMonth(year, month))
  }

  /** The date of the `n`-th day (from 0) counted from January 1 of `year`. */
  function DateFrom(year: int, n: nat): (d: Date)
    requires year >= 1
    ensures ValidDate(d) && d.year >= year
    decreases n
  {
    if n < DaysInYear(year) then
      DaysInYearByMonths(year);
      MonthAndDay(year, 1, n)
    else DateFrom(year + 1, n - DaysInYear(year))
  }

  /** The calendar date of an instant. */
  function DateOf(t: Time): (d: Date)
    ensures ValidDate(d)
  {
    DateFrom(1, t / MicrosPerDay)
  }

  // ---------------------------------------------------------------------------
  // Decimal digits
  // ---------------------------------------------------------------------------

  predicate IsDigit(c: char) { '0' <= c <= '9' }

  function DigitValue(c: char): (d: nat)
    requires IsDigit(c)
    ensures d < 10
  {
    c as int - '0' as int
  }

  function DigitChar(d: nat): (c: char)
    requires d < 10
    ensures IsDigit(c) && DigitValue(c) == d
  {
    (d + '0' as int) as char
  }

  predicate AllDigits(s: string) {
    forall i :: 0 <= i < |s| ==> IsDigit(s[i])
  }

  /** The value of a string of decimal digits, most significant first. */
  function DigitsValue(s: string): nat
    requires AllDigits(s)
  {
    if s == [] then 0 else DigitsValue(s[..|s| - 1]) * 10 + DigitValue(s[|s| - 1])
  }

  /** `str(n)` in Python, `String(n)` in JavaScript, for a non-negative n. */
  function NatToString(n: nat): (s: string)
    ensures |s| >= 1 && AllDigits(s)
  {
    if n < 10 then [DigitChar(n)] else NatToString(n / 10) + [DigitChar(n % 10)]
  }

  /** `str(i)` / `String(i)` for any integer. */
  function IntToString(i: int): string {
    if i < 0 then "-" + NatToString(-i) else NatToString(i)
  }

  lemma {:induction false} NatToStringValue(n: nat)
    ensures DigitsValue(NatToString(n)) == n
  {
    var s := NatToString(n);
    if n >= 10 {
      NatToStringValue(n / 10);
      assert s[..|s| - 1] == NatToString(n / 10);
    }
  }

  lemma {:induction false} NatToStringLength(n: nat, k: nat)
    requires Pow10(k) <= n < Pow10(k + 1)
    ensures |NatToString(n)| == k + 1
  {
    if k > 0 {
      NatToStringLength(n / 10, k - 1);
    }
  }

  function Pow10(k: nat): (p: nat)
    ensures p >= 1
  {
    if k == 0 then 1 else 10 * Pow10(k - 1)
  }

  function Zeros(n: nat): (z: string)
    ensures |z| == n && AllDigits(z)
    ensures forall i :: 0 <= i < n ==> z[i] == '0'
  {
    if n == 0 then [] else Zeros(n - 1) + ['0']
  }

  /** JavaScript's `s.padStart(width, "0")` and the zero padding of Python's
      `%02d`-style formatting: prepend zeros up to `width` characters. */
  function PadZero(s: string, width: nat): (r: string)
    ensures |r| == if |s| >= width then |s| else width
    ensures |s| >= width ==> r == s
    ensures r[|r| - |s|..] == s
    ensures forall i :: 0 <= i < |r| - |s| ==> r[i] == '0'
  {
    if |s| >= width then s else Zeros(width - |s|) + s
  }

  lemma PadZeroDigits(s: string, width: nat)
    requires AllDigits(s)
    ensures AllDigits(PadZero(s, width))
  {
  }

  lemma {:induction false} DigitsValueBound(s: string)
    requires AllDigits(s)
    ensures DigitsValue(s) < Pow10(|s|)
  {
    if s != [] {
      DigitsValueBound(s[..|s| - 1]);
    }
  }

  lemma {:induction false} DigitsValueAppend(a: string, b: string)
    requires AllDigits(a) && AllDigits(b)
    ensures AllDigits(a + b)
    ensures DigitsValue(a + b) == DigitsValue(a) * Pow10(|b|) + DigitsValue(b)
  {
    if b != [] {
      var b' := b[..|b| - 1];
      assert (a + b)[..|a + b| - 1] == a + b';
      DigitsValueAppend(a, b');
      ShiftDecimal(DigitsValue(a), Pow10(|b'|), DigitsValue(b'), DigitValue(b[|b| - 1]));
    } else {
      assert a + b == a;
    }
  }

  /** Appending one digit to `x` followed by `y` shifts both by one place. */
  lemma ShiftDecimal(x: int, p: int, y: int, d: int)
    ensures (x * p + y) * 10 + d == x * (10 * p) + (y * 10 + d)
  {
  }

  lemma {:induction false} DigitsValueZeros(n: nat)
    ensures DigitsValue(Zeros(n)) == 0
  {
    if n > 0 {
      assert Zeros(n)[..n - 1] == Zeros(n - 1);
      DigitsValueZeros(n - 1);
    }
  }

  /** Zero padding keeps the number a digit string spells. */
  lemma PadZeroValue(s: string, width: nat)
    requires AllDigits(s)
    ensures AllDigits(PadZero(s, width)) && DigitsValue(PadZero(s, width)) == DigitsValue(s)
  {
    if |s| < width {
      DigitsValueAppend(Zeros(width - |s|), s);
      DigitsValueZeros(width - |s|);
    }
  }

  /** `"%02d" % n` for a number below 100. */
  function TwoDigits(n: nat): (s: string)
    requires n < 100
    ensures |s| == 2 && AllDigits(s) && DigitsValue(s) == n
  {
    var s := [DigitChar(n / 10), DigitChar(n % 10)];
    assert s[..1] == [DigitChar(n / 10)] && s[..1][..0] == [];
    assert DigitsValue(s[..1]) == n / 10;
    assert DigitsValue(s) == (n / 10) * 10 + n % 10;
    s
  }

  /** Zero padding to two places of the decimal form is the same two digits. */
  lemma PadZeroTwoDigits(n: nat)
    requires n < 100
    ensures PadZero(NatToString(n), 2) == TwoDigits(n)
  {
    if n >= 10 {
      assert NatToString(n / 10) == [DigitChar(n / 10)];
      assert NatToString(n) == [DigitChar(n / 10), DigitChar(n % 10)];
    } else {
      assert NatToString(n) == [DigitChar(n)];
      assert Zeros(1) == ['0'] && DigitChar(0) == '0';
    }
  }

  /** The date half of `datetime.isoformat()`: `YYYY-MM-DD`, the year padded
      to four digits. */
  function IsoDate(d: Date): (s: string)
    requires ValidDate(d)
    ensures forall i :: 0 <= i < |s| ==> IsDigit(s[i]) || s[i] == '-'
  {
    PadZeroDigits(NatToString(d.year), 4);
    PadZero(NatToString(d.year), 4) + "-" + TwoDigits(d.month) + "-" + TwoDigits(d.day)
  }

  /** The decimal form of a whole number of thousands ends in three zeros. */
  lemma ThousandsDigits(k: nat)
    requires k >= 1
    ensures NatToString(1000 * k) == NatToString(k) + "000"
  {
    assert NatToString(10 * k) == NatToString(k) + [DigitChar(0)];
    assert NatToString(100 * k) == NatToString(10 * k) + [DigitChar(0)];
    assert NatToString(1000 * k) == NatToString(100 * k) + [DigitChar(0)];
  }

  /** The fractional part of a whole number of milliseconds ends in three
      zeros. */
  lemma FractionWholeMillis(us: nat)
    requires 0 < us < 1_000_000 && us % 1000 == 0
    ensures |IsoFraction(us)| == 7 && IsoFraction(us)[4..] == "000"
  {
    var k := us / 1000;
    assert us == 1000 * k && k >= 1;
    ThousandsDigits(k);
    var digits := NatToString(us);
    var padded := PadZero(digits, 6);
    assert digits[|digits| - 3..] == "000";
    assert IsoFraction(us) == "." + padded;
    assert padded[|padded| - |digits|..] == digits;
    assert padded[|padded| - 3..] == "000";
  }

  /** `isoformat()` of an instant stored as a BSON date: whole milliseconds,
      so a fraction, when written, ends in three zeros. */
  lemma IsoFormatWholeMillis(t: Time)
    requires t % MicrosPerMilli == 0 && t % 1_000_000 != 0
    ensures var s := IsoFormat(t); |s| >= 3 && s[|s| - 3..] == "000"
  {
    var us := t % 1_000_000;
    assert us % 1000 == 0 by {
      assert t == 1_000_000 * (t / 1_000_000) + us;
      assert 1_000_000 * (t / 1_000_000) == 1000 * (1000 * (t / 1_000_000));
    }
    FractionWholeMillis(us);
    var clock := IsoDate(DateOf(t)) + "T" + IsoTime(t % MicrosPerDay);
    var fraction := IsoFraction(us);
    assert IsoFormat(t) == clock + fraction;
    assert (clock + fraction)[|clock| + 4..] == fraction[4..];
  }

  /** The time half `HH:MM:SS` of the instant `us` microseconds into a day. */
  function IsoTime(us: nat): (s: string)
    requires us < MicrosPerDay
    ensures |s| == 8 && s[2] == ':' && s[5] == ':'
    ensures forall i :: 0 <= i < 8 && i != 2 && i != 5 ==> IsDigit(s[i])
  {
    TwoDigits(us / MicrosPerHour) + ":" + TwoDigits(us / MicrosPerMinute % 60) + ":"
      + TwoDigits(us / 1_000_000 % 60)
  }

  /** `".%06d" % us` when `us` is not zero, nothing otherwise. */
  function IsoFraction(us: nat): (s: string)
    requires us < 1_000_000
    ensures us == 0 <==> s == []
    ensures s != [] ==> |s| == 7 && s[0] == '.' && AllDigits(s[1..])
  {
    if us == 0 then ""
    else
      assert |NatToString(us)| <= 6 by {
        var k :| 0 <= k <= 5 && Pow10(k) <= us < Pow10(k + 1);
        NatToStringLength(us, k);
      }
      PadZeroDigits(NatToString(us), 6);
      "." + PadZero(NatToString(us), 6)
  }

  /** `datetime.isoformat()`: the date, `T`, the time, and `.ffffff` only when
      the microsecond is not zero. */
  function IsoFormat(t: Time): (s: string)
    ensures (forall i :: 0 <= i < |s| ==> s[i] != '.') <==> t % 1_000_000 == 0
  {
    var date := IsoDate(DateOf(t));
    var time := IsoTime(t % MicrosPerDay);
    var fraction := IsoFraction(t % 1_000_000);
    NoDotBeforeFraction(date, time, fraction);
    date + "T" + time + fraction
  }

  /** Only the fractional part of an ISO timestamp can hold a `.`. */
  lemma NoDotBeforeFraction(date: string, time: string, fraction: string)
    requires forall i :: 0 <= i < |date| ==> IsDigit(date[i]) || date[i] == '-'
    requires forall i :: 0 <= i < |time| ==> IsDigit(time[i]) || time[i] == ':'
    requires fraction == [] || fraction[0] == '.'
    ensures var s := date + "T" + time + fraction;
      (forall i :: 0 <= i < |s| ==> s[i] != '.') <==> fraction == []
  {
    var s := date + "T" + time + fraction;
    if fraction != [] {
      assert s[|date| + 1 + |time|] == '.';
    }
  }

  // ---------------------------------------------------------------------------
  // Text operations of the Python handlers
  // ---------------------------------------------------------------------------

  /** `str.lower()` restricted to ASCII letters; other characters are kept. */
  function LowerChar(c: char): (r: char)
    ensures !IsUpper(r)
    ensures !IsUpper(c) ==> r == c
  {
    if 'A' <= c <= 'Z' then (c as int - 'A' as int + 'a' as int) as char else c
  }

  function Lower(s: string): (r: string)
    ensures |r| == |s|
    ensures forall i :: 0 <= i < |s| ==> r[i] == LowerChar(s[i])
  {
    if s == [] then [] else [LowerChar(s[0])] + Lower(s[1..])
  }

  predicate IsUpper(c: char) { 'A' <= c <= 'Z' }

  lemma {:induction false} LowerIdempotent(s: string)
    ensures Lower(Lower(s)) == Lower(s)
  {
    if s != [] {
      LowerIdempotent(s[1..]);
    }
  }

  /** A string is already lower-case exactly when it holds no ASCII capital. */
  lemma LowerFixedPoint(s: string)
    ensures Lower(s) == s <==> forall i :: 0 <= i < |s| ==> !IsUpper(s[i])
  {
    if Lower(s) == s {
      forall i | 0 <= i < |s| ensures !IsUpper(s[i]) {
        assert Lower(s)[i] == LowerChar(s[i]);
      }
    }
  }

  /** The characters for which Python's `str.isspace()` holds; `str.strip()`
      removes them from both ends. */
  predicate IsSpace(c: char) {
    ('\t' <= c <= '\r') || ('\U{1C}' <= c <= ' ') || c == '\U{85}' || c == '\U{A0}'
    || c == '\U{1680}' || ('\U{2000}' <= c <= '\U{200A}') || c == '\U{2028}'
    || c == '\U{2029}' || c == '\U{202F}' || c == '\U{205F}' || c == '\U{3000}'
  }

  function StripStart(s: string): (r: string)
    ensures |r| <= |s| && r == s[|s| - |r|..]
    ensures r != [] ==> !IsSpace(r[0])
    ensures forall i :: 0 <= i < |s| - |r| ==> IsSpace(s[i])
  {
    if s != [] && IsSpace(s[0]) then StripStart(s[1..]) else s
  }

  function StripEnd(s: string): (r: string)
    ensures |r| <= |s| && r == s[..|r|]
    ensures r != [] ==> !IsSpace(r[|r| - 1])
    ensures forall i :: |r| <= i < |s| ==> IsSpace(s[i])
  {
    if s != [] && IsSpace(s[|s| - 1]) then StripEnd(s[..|s| - 1]) else s
  }

  /** Python's `str.strip()`. */
  function Strip(s: string): (r: string)
    ensures |r| <= |s|
    ensures r != [] ==> !IsSpace(r[0]) && !IsSpace(r[|r| - 1])
    ensures exists i, j ::
      && 0 <= i <= j <= |s| && r == s[i..j]
      && (forall k :: 0 <= k < i ==> IsSpace(s[k]))
      && (forall k :: j <= k < |s| ==> IsSpace(s[k]))
  {
    var t := StripStart(s);
    var r := StripEnd(t);
    TrimmedSlice(s, t, r, IsSpace);
    var i := |s| - |t|;
    assert r == s[i..i + |r|];
    r
  }

  /** Cutting a run of `cut` characters off the front, then another off the
      back, leaves a slice of the text with only such characters outside it. */
  lemma TrimmedSlice(s: string, t: string, r: string, cut: char -> bool)
    requires |t| <= |s| && t == s[|s| - |t|..] && forall k :: 0 <= k < |s| - |t| ==> cut(s[k])
    requires |r| <= |t| && r == t[..|r|] && forall k :: |r| <= k < |t| ==> cut(t[k])
    ensures var i := |s| - |t|;
      && r == s[i..i + |r|]
      && (forall k :: 0 <= k < i ==> cut(s[k]))
      && (forall k :: i + |r| <= k < |s| ==> cut(s[k]))
  {
    var i := |s| - |t|;
    forall k | i + |r| <= k < |s| ensures cut(s[k]) {
      assert s[k] == t[k - i];
    }
  }

  /** Bytes taken by one code point in UTF-8. */
  function Utf8Width(c: char): (n: nat)
    ensures 1 <= n <= 4
  {
    if c as int < 0x80 then 1 else if c as int < 0x800 then 2 else if c as int < 0x1_0000 then 3 else 4
  }

  /** `len(s.encode("utf-8"))` in Python and `new TextEncoder().encode(s).length`
      in JavaScript. */
  function Utf8Length(s: string): (n: nat)
    ensures |s| <= n <= 4 * |s|
  {
    if s == [] then 0 else Utf8Width(s[0]) + Utf8Length(s[1..])
  }

  /** bcrypt's input ceiling, which both the server and the admin page enforce. */
  const MaxPasswordBytes: nat := 72

  predicate PasswordTooLong(password: string) {
    Utf8Length(password) > MaxPasswordBytes
  }

  // ---------------------------------------------------------------------------
  // Credentials, tokens and notifications, as symbolic values
  // ---------------------------------------------------------------------------

  /** The salted hash `get_password_hash(p)` stores, as a symbolic term: the
      store holds a `PasswordHash`, never the plaintext string. */
  datatype PasswordHash = HashOf(secret: string)

  function Hash(password: string): PasswordHash {
    HashOf(password)
  }

  /** `verify_password(plain, hashed)`. */
  predicate Verify(password: string, hashed: PasswordHash) {
    hashed == HashOf(password)
  }

  lemma VerifyHash(password: string, other: string)
    ensures Verify(password, Hash(password))
    ensures Verify(other, Hash(password)) <==> other == password
  {
  }

  /** The claims of a signed access token. */
  datatype Token = Token(sub: string, exp: Time)

  /** The default token lifetime of sixty minutes. */
  const TokenLifetime: int := 60 * MicrosPerMinute

  /** `create_access_token({"sub": sub})` at instant `now`. */
  function CreateAccessToken(sub: string, now: Time): (t: Token)
    ensures t.sub == sub && t.exp > now
  {
    Token(sub, now + TokenLifetime)
  }

  /** Who a notification email is addressed to. */
  datatype Audience = Submitter | Operator

  /** One `send_email` job handed to `asyncio.create_task`. */
  datatype Job = Job(recipient: string, audience: Audience)

  /** The two jobs every accepted submission schedules: one to the submitter,
      one to the operator address. */
  function NotifyBoth(submitter: string, operator: string): (jobs: seq<Job>)
    ensures |jobs| == 2 && jobs[0].audience == Submitter && jobs[1].audience == Operator
    ensures jobs[0].recipient == submitter && jobs[1].recipient == operator
  {
    [Job(submitter, Submitter), Job(operator, Operator)]
  }

  /** The jobs that end up scheduled: none when scheduling itself raised. */
  function Scheduled(jobs: seq<Job>, scheduleFails: bool): (r: seq<Job>)
    ensures r == [] || r == jobs
    ensures jobs != [] ==> (r == [] <==> scheduleFails)
  {
    if scheduleFails then [] else jobs
  }
}
