/**
 * `POST /book-meeting`: the date must pass `datetime.strptime(date,
 * "%Y-%m-%d")`; a second booking for the same email and the same date string
 * is refused, by the handler's own lookup and, behind it, by the unique index
 * on `(email, date)`; otherwise the booking is stored with the current time.
 */
module Meeting {
  import opened Common
  import opened Store

  const InvalidDate: string := "Invalid date format"
  const AlreadyBooked: string := "You already booked a meeting for this date"
  const Booked: string := "Meeting booked"

  /** The success body `{"message": ..., "booking_id": ...}`. */
  datatype Booking = Booking(message: string, bookingId: string)

  // ---------------------------------------------------------------------------
  // `strptime(s, "%Y-%m-%d")`. The format compiles to the regular expression
  // `(\d\d\d\d)-(1[0-2]|0[1-9]|[1-9])-(3[01]|[12]\d|0[1-9]|[1-9]| [1-9])`,
  // matched at the start of `s`; text left over after the match is an error,
  // and so is a year 0 or a day past the end of the month.
  // ---------------------------------------------------------------------------

  /** What one group of the pattern matched: its length and the number. */
  datatype Field = Field(length: nat, value: nat)

  /** The month group. Its alternatives are tried in order and the first that
      matches is kept: where an earlier one matches, a later one would stop
      before a character that cannot be the following `-`, so backtracking
      never changes the outcome. */
  function MonthField(s: string): (f: Option<Field>)
    ensures f.Some? ==> 1 <= f.value.length <= 2 && f.value.length <= |s| && 1 <= f.value.value <= 12
  {
    if |s| >= 2 && s[0] == '1' && '0' <= s[1] <= '2' then Some(Field(2, 10 + DigitValue(s[1])))
    else if |s| >= 2 && s[0] == '0' && '1' <= s[1] <= '9' then Some(Field(2, DigitValue(s[1])))
    else if |s| >= 1 && '1' <= s[0] <= '9' then Some(Field(1, DigitValue(s[0])))
    else None
  }

  /** The day group, the last in the pattern: the first alternative that
      matches ends the match. The last alternative accepts a blank before a
      single digit. */
  function DayField(s: string): (f: Option<Field>)
    ensures f.Some? ==> 1 <= f.value.length <= 2 && f.value.length <= |s| && 1 <= f.value.value <= 31
  {
    if |s| >= 2 && s[0] == '3' && '0' <= s[1] <= '1' then Some(Field(2, 30 + DigitValue(s[1])))
    else if |s| >= 2 && '1' <= s[0] <= '2' && IsDigit(s[1]) then
      Some(Field(2, 10 * DigitValue(s[0]) + DigitValue(s[1])))
    else if |s| >= 2 && s[0] == '0' && '1' <= s[1] <= '9' then Some(Field(2, DigitValue(s[1])))
    else if |s| >= 1 && '1' <= s[0] <= '9' then Some(Field(1, DigitValue(s[0])))
    else if |s| >= 2 && s[0] == ' ' && '1' <= s[1] <= '9' then Some(Field(2, DigitValue(s[1])))
    else None
  }

  /** `datetime.strptime(s, "%Y-%m-%d")`: the calendar date, or `None` where
      it raises `ValueError`. */
  function ParseDate(s: string): (d: Option<Date>)
    ensures d.Some? ==> ValidDate(d.value) && d.value.year <= 9999
    ensures d.Some? ==> 8 <= |s| <= 10 && s[4] == '-'
  {
    if |s| < 5 || !AllDigits(s[..4]) || s[4] != '-' then None
    else match MonthField(s[5..])
      case None => None
      case Some(m) =>
        var k := 5 + m.length;
        if k >= |s| || s[k] != '-' then None
        else match DayField(s[k + 1..])
          case None => None
          case Some(day) =>
            var year := DigitsValue(s[..4]);
            DigitsValueBound(s[..4]);
            if k + 1 + day.length != |s| then None // unconverted data remains
            else if year < 1 || day.value > DaysInMonth(year, m.value) then None
            else Some(Date(year, m.value, day.value))
  }

  lemma MonthFieldOfTwoDigits(m: nat, rest: string)
    requires 1 <= m <= 12
    ensures MonthField(TwoDigits(m) + rest) == Some(Field(2, m))
  {
    var s := TwoDigits(m) + rest;
    assert s[0] == DigitChar(m / 10) && s[1] == DigitChar(m % 10);
  }

  lemma DayFieldOfTwoDigits(d: nat)
    requires 1 <= d <= 31
    ensures DayField(TwoDigits(d)) == Some(Field(2, d))
  {
  }

  /** Every date of years 1 to 9999, written `YYYY-MM-DD` with zero padding,
      is accepted and read back as itself. */
  lemma {:induction false} ParseIsoDate(d: Date)
    requires ValidDate(d) && d.year <= 9999
    ensures ParseDate(IsoDate(d)) == Some(d)
  {
    var y := PadZero(NatToString(d.year), 4);
    var mm := TwoDigits(d.month);
    var dd := TwoDigits(d.day);
    var s := IsoDate(d);
    assert s == y + "-" + mm + "-" + dd;
    assert |y| == 4 by {
      if d.year < 10 { NatToStringLength(d.year, 0); }
      else if d.year < 100 { NatToStringLength(d.year, 1); }
      else if d.year < 1000 { NatToStringLength(d.year, 2); }
      else { NatToStringLength(d.year, 3); }
    }
    NatToStringValue(d.year);
    PadZeroValue(NatToString(d.year), 4);
    assert s[..4] == y;
    assert s[5..] == mm + ("-" + dd);
    MonthFieldOfTwoDigits(d.month, "-" + dd);
    assert s[7] == '-';
    assert s[8..] == dd;
    DayFieldOfTwoDigits(d.day);
  }

  /** Month and day need not be padded, and a day may be a blank and one
      digit: these spellings of 5 January 2024 are all accepted, and are
      different strings. */
  lemma UnpaddedSpellings()
    ensures ParseDate("2024-01-05") == Some(Date(2024, 1, 5))
    ensures ParseDate("2024-1-5") == Some(Date(2024, 1, 5))
    ensures ParseDate("2024-1- 5") == Some(Date(2024, 1, 5))
  {
    Year2024();
    assert "2024-01-05"[..4] == "2024" && "2024-1-5"[..4] == "2024" && "2024-1- 5"[..4] == "2024";
    assert "2024-01-05"[5..] == "01-05" && "2024-01-05"[8..] == "05";
    assert "2024-1-5"[5..] == "1-5" && "2024-1-5"[7..] == "5";
    assert "2024-1- 5"[5..] == "1- 5" && "2024-1- 5"[7..] == " 5";
  }

  lemma Year2024()
    ensures DigitsValue("2024") == 2024
  {
    assert "2024"[..3] == "202" && "202"[..2] == "20" && "20"[..1] == "2" && "2"[..0] == "";
  }

  /** 29 February exists in 2024 and not in 2023. */
  lemma LeapDayChecked()
    ensures ParseDate("2024-02-29") == Some(Date(2024, 2, 29))
    ensures ParseDate("2023-02-29") == None
  {
    Year2024();
    assert DigitsValue("2023") == 2023 by {
      assert "2023"[..3] == "202" && "202"[..2] == "20" && "20"[..1] == "2" && "2"[..0] == "";
    }
    assert "2024-02-29"[..4] == "2024" && "2024-02-29"[5..] == "02-29" && "2024-02-29"[8..] == "29";
    assert "2023-02-29"[..4] == "2023" && "2023-02-29"[5..] == "02-29" && "2023-02-29"[8..] == "29";
  }

  /** Month 13, day 31 of a 30-day month and year 0 do not exist. */
  lemma OutOfRangeRefused()
    ensures ParseDate("2024-13-01") == None
    ensures ParseDate("2024-04-31") == None
    ensures ParseDate("0000-01-01") == None
  {
    Year2024();
    assert "2024-13-01"[..4] == "2024" && "2024-13-01"[5..] == "13-01";
    assert "2024-04-31"[..4] == "2024" && "2024-04-31"[5..] == "04-31" && "2024-04-31"[8..] == "31";
    assert DigitsValue("0000") == 0 by {
      assert "0000"[..3] == "000" && "000"[..2] == "00" && "00"[..1] == "0" && "0"[..0] == "";
    }
    assert "0000-01-01"[..4] == "0000" && "0000-01-01"[5..] == "01-01" && "0000-01-01"[8..] == "01";
  }

  /** Text after a complete date is refused. */
  lemma TrailingTextRefused()
    ensures ParseDate("2024-01-011") == None
    ensures ParseDate("2024-01-05 ") == None
  {
    Year2024();
    assert "2024-01-011"[..4] == "2024" && "2024-01-011"[5..] == "01-011" && "2024-01-011"[8..] == "011";
    assert "2024-01-05 "[..4] == "2024" && "2024-01-05 "[5..] == "01-05 " && "2024-01-05 "[8..] == "05 ";
  }

  /** The handler's refusal, if any, in the order it checks: the date format
      first, then the stored `(email, date)` pairs. The name and the agenda
      play no part. */
  function Refusal(meetings: seq<Doc<Meeting>>, m: Meeting): (r: Option<(int, string)>)
    ensures r.Some? <==> ParseDate(m.date).None? || KeyTaken(meetings, MeetingKey, (m.email, m.date))
    ensures ParseDate(m.date).None? ==> r == Some((400, InvalidDate))
  {
    if ParseDate(m.date).None? then Some((400, InvalidDate))
    else if KeyTaken(meetings, MeetingKey, (m.email, m.date)) then Some((409, AlreadyBooked))
    else None
  }

  /** The handler. `insertFails` stands for a store error other than a
      unique-index rejection, which FastAPI turns into a 500. After the
      handler's own lookup the index can never reject the insert. */
  method Book(db: Database, m: Meeting, now: Time, operator: string,
              insertFails: bool, scheduleFails: bool)
    returns (r: Reply<Booking>, jobs: seq<Job>)
    requires db.Valid()
    modifies db`meetings, db`nextId
    ensures db.Valid()
    ensures
      match Refusal(old(db.meetings), m)
      case Some((status, detail)) =>
        r == Err(status, detail) && db.meetings == old(db.meetings) && jobs == []
      case None =>
        if insertFails then
          r == Err(500, InternalError) && db.meetings == old(db.meetings) && jobs == []
        else
          && r == Ok(201, Booking(Booked, IdString(old(db.nextId))))
          && db.meetings == old(db.meetings) + [Doc(old(db.nextId), Some(BsonTime(now)), m)]
          && jobs == Scheduled(NotifyBoth(m.email, operator), scheduleFails)
    ensures KeysUnique(old(db.meetings), MeetingKey) ==> KeysUnique(db.meetings, MeetingKey)
  {
    if ParseDate(m.date).None? {
      return Err(400, InvalidDate), [];
    }
    if KeyTaken(db.meetings, MeetingKey, (m.email, m.date)) {
      return Err(409, AlreadyBooked), [];
    }
    ghost var before := db.meetings;
    var outcome := db.InsertMeeting(m, now, insertFails);
    match outcome {
      case Inserted(id) =>
        if KeysUnique(before, MeetingKey) {
          GuardedAppendKeepsKeysUnique(before, MeetingKey, Doc(id, Some(BsonTime(now)), m));
        }
        jobs := Scheduled(NotifyBoth(m.email, operator), scheduleFails);
        r := Ok(201, Booking(Booked, IdString(id)));
      case DuplicateKey =>
        r, jobs := Err(409, AlreadyBooked), [];
      case StoreError =>
        r, jobs := Err(500, InternalError), [];
    }
  }

  /** The duplicate check compares the raw date string: after a booking for
      `2024-01-05`, the same email may book `2024-1-5`, the same day. */
  lemma SameDayOtherSpelling(meetings: seq<Doc<Meeting>>, id: Id, now: Time, name: string,
                             email: string, agenda: string)
    requires !KeyTaken(meetings, MeetingKey, (email, "2024-1-5"))
    ensures var after := meetings + [Doc(id, Some(BsonTime(now)), Meeting(name, email, agenda, "2024-01-05"))];
      Refusal(after, Meeting(name, email, agenda, "2024-1-5")) == None
  {
    UnpaddedSpellings();
    var after := meetings + [Doc(id, Some(BsonTime(now)), Meeting(name, email, agenda, "2024-01-05"))];
    forall i | 0 <= i < |after| ensures MeetingKey(after[i].body) != (email, "2024-1-5") {
      if i < |meetings| { assert after[i] == meetings[i]; }
    }
  }

  /** After a successful booking, the same email and date string are refused
      whatever name and agenda come with them. */
  lemma SecondBookingRefused(meetings: seq<Doc<Meeting>>, id: Id, now: Time, m: Meeting, again: Meeting)
    requires again.email == m.email && again.date == m.date && ParseDate(m.date).Some?
    ensures Refusal(meetings + [Doc(id, Some(BsonTime(now)), m)], again) == Some((409, AlreadyBooked))
  {
    var after := meetings + [Doc(id, Some(BsonTime(now)), m)];
    assert MeetingKey(after[|meetings|].body) == (again.email, again.date);
  }
}
