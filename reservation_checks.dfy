/**
 * The reservation middlewares as functions of the request, and the three
 * chains the reservation routes run them in.
 */
module ReservationChecks {
  import opened Wrappers
  import opened Values
  import opened Calendar
  import opened Pipeline
  import opened Records

  /**
   * What the reservation middlewares see: the `:reservation_id` route
   * parameter, the body's `data`, the row `reservationIdExists` found for the
   * parameter, and the clock reading `Date.now()` would return.
   */
  datatype ResRequest = ResRequest(reservationParam: string, data: Option<Fields>, found: Option<Reservation>, now: int)

  /** One middleware each; `ValidDateCheck` and `ValidTimeCheck` are `validDate` and `validTime`. */
  datatype Check =
    | ReservationIdExists
    | ValidData
    | ValidFirstName
    | ValidLastName
    | ValidMobileNumber
    | ValidDateCheck
    | HasTime
    | ValidTimeCheck
    | ValidPeople
    | ReservationDuringBusHours
    | ReservationOnTuesday
    | ReservationIsInPast
    | PostStatusCheck
    | UpdateStatusCheck
    | FinishedRes

  const BusinessHoursMessage := "Reservation must be within business hour 10:30 to 21:30"

  /** Reading `data.key` when `data` is missing throws. */
  function Required(data: Option<Fields>, key: string, message: string): Outcome
  {
    match data
    case None => Crash
    case Some(f) => if Truthy(Get(f, key)) then Pass else BadRequest(message)
  }

  function CheckReservationIdExists(req: ResRequest): Outcome
  {
    if req.reservationParam != "" && req.found.Some? then Pass
    else NotFound("Reservation " + req.reservationParam + " cannot be found")
  }

  function CheckValidData(data: Option<Fields>): Outcome
  {
    if data.Some? then Pass else BadRequest("Reservation information required")
  }

  /** `Date.parse(v)` gives a truthy number: a parseable date other than 1970-01-01 (which is 0). */
  predicate DateParsesTruthy(v: Value)
  {
    v.Str? && ParseDate(v.s).Some? && DayNumber(ParseDate(v.s).value) * 86400000 != 0
  }

  function CheckValidDate(data: Option<Fields>): Outcome
  {
    match data
    case None => Crash
    case Some(f) =>
      var date := Get(f, "reservation_date");
      if Truthy(date) && date != Str("") && DateParsesTruthy(date) then Pass
      else BadRequest("reservation_date must be valid")
  }

  function CheckHasTime(data: Option<Fields>): Outcome
  {
    match data
    case None => Crash
    case Some(f) =>
      var time := Get(f, "reservation_time");
      if Truthy(time) && time.Str? then Pass else BadRequest("reservation_time is required")
  }

  /** `time.match(...)` throws unless `time` is a string. */
  function CheckValidTime(data: Option<Fields>): Outcome
  {
    match data
    case None => Crash
    case Some(f) =>
      var time := Get(f, "reservation_time");
      if !time.Str? then Crash
      else if MatchesTimePattern(time.s) then Pass
      else BadRequest("reservation_time must be valid")
  }

  function CheckValidPeople(data: Option<Fields>): Outcome
  {
    match data
    case None => Crash
    case Some(f) =>
      var people := Get(f, "people");
      if Truthy(people) && people.Num? && people.n > 0 then Pass else BadRequest("people is required")
  }

  /** `a < k` where `a` may be `NaN` (None), which compares false. */
  predicate Below(a: Option<int>, k: int)
  {
    a.Some? && a.value < k
  }

  predicate Above(a: Option<int>, k: int)
  {
    a.Some? && a.value > k
  }

  predicate Is(a: Option<int>, k: int)
  {
    a.Some? && a.value == k
  }

  /** The two rejections of `reservationDuringBusHours` on `Number` of the split pieces. */
  predicate OutsideBusinessHours(hour: Option<int>, min: Option<int>)
  {
    || Below(hour, 10) || (Is(hour, 10) && Below(min, 30))
    || Above(hour, 21) || (Is(hour, 21) && Above(min, 30))
  }

  function CheckBusinessHours(data: Option<Fields>): Outcome
  {
    match data
    case None => Crash
    case Some(f) =>
      var time := Get(f, "reservation_time");
      if !time.Str? then Crash
      else
        var pieces := Split(time.s, ':');
        var hour := JsNumber(pieces[0]);
        var min := if |pieces| >= 2 then JsNumber(pieces[1]) else None;
        if OutsideBusinessHours(hour, min) then BadRequest(BusinessHoursMessage) else Pass
  }

  /** `new Date(date).getUTCDay() === 2`; an unparseable date gives `NaN` and passes. */
  function CheckOnTuesday(data: Option<Fields>): Outcome
  {
    match data
    case None => Crash
    case Some(f) =>
      var date := Get(f, "reservation_date");
      if date.Str? && ParseDate(date.s).Some? && Weekday(ParseDate(date.s).value) == 2
      then BadRequest("The restaurant is closed on Tuesday!")
      else Pass
  }

  /** `new Date(date + " " + time) < Date.now()`; an unparseable instant is `NaN` and passes. */
  function CheckInPast(data: Option<Fields>, now: int): Outcome
  {
    match data
    case None => Crash
    case Some(f) =>
      var date := Get(f, "reservation_date");
      var time := Get(f, "reservation_time");
      if date.Str? && time.Str? && ParseDate(date.s).Some? && ParseTime(time.s).Some?
         && InstantMs(ParseDate(date.s).value, ParseTime(time.s).value) < now
      then BadRequest("Reservation must be made for the future")
      else Pass
  }

  function CheckPostStatus(data: Option<Fields>): Outcome
  {
    match data
    case None => Crash
    case Some(f) =>
      var status := Get(f, "status");
      if !Truthy(status) || status == Str("booked") then Pass
      else BadRequest("Status cannot be " + JsString(status))
  }

  /** The four status strings the status route recognises. */
  predicate KnownStatus(v: Value)
  {
    v == Str("booked") || v == Str("seated") || v == Str("finished") || v == Str("cancelled")
  }

  function CheckUpdateStatus(data: Option<Fields>): Outcome
  {
    match data
    case None => Crash
    case Some(f) =>
      var status := Get(f, "status");
      if KnownStatus(status) then Pass else BadRequest("Unknown status " + JsString(status))
  }

  /** Reading `res.locals.reservation.status` with no reservation loaded throws. */
  function CheckFinishedRes(found: Option<Reservation>): Outcome
  {
    match found
    case None => Crash
    case Some(r) =>
      if r.status == Str("finished") then BadRequest("A finished reservation cannot be updated") else Pass
  }

  function RunCheck(c: Check, req: ResRequest): Outcome
  {
    match c
    case ReservationIdExists => CheckReservationIdExists(req)
    case ValidData => CheckValidData(req.data)
    case ValidFirstName => Required(req.data, "first_name", "first_name is required")
    case ValidLastName => Required(req.data, "last_name", "last_name is required")
    case ValidMobileNumber => Required(req.data, "mobile_number", "mobile_number is required")
    case ValidDateCheck => CheckValidDate(req.data)
    case HasTime => CheckHasTime(req.data)
    case ValidTimeCheck => CheckValidTime(req.data)
    case ValidPeople => CheckValidPeople(req.data)
    case ReservationDuringBusHours => CheckBusinessHours(req.data)
    case ReservationOnTuesday => CheckOnTuesday(req.data)
    case ReservationIsInPast => CheckInPast(req.data, req.now)
    case PostStatusCheck => CheckPostStatus(req.data)
    case UpdateStatusCheck => CheckUpdateStatus(req.data)
    case FinishedRes => CheckFinishedRes(req.found)
  }

  /** The field checks both the create and the edit chain run, in route order. */
  const FieldChain: seq<Check> := [ValidFirstName, ValidLastName, ValidMobileNumber, ValidDateCheck, HasTime, ValidTimeCheck, ValidPeople]

  /** The business-rule checks that follow them. */
  const RuleChain: seq<Check> := [ReservationDuringBusHours, ReservationOnTuesday, ReservationIsInPast, PostStatusCheck]

  /** `POST /reservations`. */
  const CreateChain: seq<Check> := [ValidData] + (FieldChain + RuleChain)

  /** `PUT /reservations/:reservation_id/status`. */
  const UpdateChain: seq<Check> := [ReservationIdExists, UpdateStatusCheck, FinishedRes]

  /** `PUT /reservations/:reservation_id`: no `validData` step. */
  const ResUpdateChain: seq<Check> := [ReservationIdExists] + (FieldChain + RuleChain)

  /** `GET /reservations/:reservation_id`. */
  const ReadChain: seq<Check> := [ReservationIdExists]

  /** The checks as functions of the one request they all see. */
  function RunOn(req: ResRequest): Check -> Outcome
  {
    c => RunCheck(c, req)
  }

  function Verdict(chain: seq<Check>, req: ResRequest): Outcome
  {
    FirstFailure(chain, RunOn(req))
  }

  /** The business-hour window in minutes of the day: 10:30 to 21:30, both included. */
  predicate InBusinessHours(t: Time)
  {
    10 * 60 + 30 <= t.hour * 60 + t.minute <= 21 * 60 + 30
  }

  /**
   * On a well-formed time the hour check rejects exactly the times outside
   * 10:30-21:30; seconds are ignored, so 21:30:59 is accepted.
   */
  lemma BusinessHoursWindow(f: Fields)
    requires Get(f, "reservation_time").Str? && MatchesTimePattern(Get(f, "reservation_time").s)
    ensures var t := ParseTime(Get(f, "reservation_time").s).value;
      CheckBusinessHours(Some(f)).Pass? <==> InBusinessHours(t)
    ensures !CheckBusinessHours(Some(f)).Pass? ==> CheckBusinessHours(Some(f)) == BadRequest(BusinessHoursMessage)
  {
    var s := Get(f, "reservation_time").s;
    MatchingTimeIsFormatted(s);
    var t := ParseTime(s).value;
    var h, m := Digits2(t.hour), Digits2(t.minute);
    Digits2RoundTrip(t.hour);
    Digits2RoundTrip(t.minute);
    assert forall i :: 0 <= i < |h| ==> h[i] != ':';
    assert forall i :: 0 <= i < |m| ==> m[i] != ':';
    if |s| == 8 {
      var sec := Digits2(t.second);
      Digits2RoundTrip(t.second);
      assert forall i :: 0 <= i < |sec| ==> sec[i] != ':';
      assert s == h + [':'] + (m + [':'] + sec);
      SplitAfterPiece(h, ':', m + [':'] + sec);
      SplitAfterPiece(m, ':', sec);
    } else {
      assert s == h + [':'] + m;
      SplitAfterPiece(h, ':', m);
      SplitWithoutSeparator(m, ':');
    }
    assert Split(s, ':')[0] == h && Split(s, ':')[1] == m;
  }

  /** The hour check on one literal time string, from its parsed form. */
  lemma BusinessHoursOn(s: string, t: Time, withSeconds: bool)
    requires ValidTime(t) && (withSeconds || t.second == 0) && s == FormatTime(t, withSeconds)
    ensures CheckBusinessHours(Some(map["reservation_time" := Str(s)])).Pass? <==> InBusinessHours(t)
  {
    FormattedTimeMatches(t, withSeconds);
    BusinessHoursWindow(map["reservation_time" := Str(s)]);
  }

  /** 10:30 and 21:30 themselves are inside business hours. */
  lemma BusinessHoursIncludeBounds()
    ensures CheckBusinessHours(Some(map["reservation_time" := Str("10:30")])).Pass?
    ensures CheckBusinessHours(Some(map["reservation_time" := Str("21:30")])).Pass?
  {
    assert Digits2(10) == "10" && Digits2(30) == "30";
    BusinessHoursOn("10:30", Time(10, 30, 0), false);
    assert Digits2(21) == "21";
    BusinessHoursOn("21:30", Time(21, 30, 0), false);
  }

  /** Seconds are not looked at: 21:30:59 is accepted. */
  lemma BusinessHoursIgnoreSeconds()
    ensures CheckBusinessHours(Some(map["reservation_time" := Str("21:30:59")])).Pass?
  {
    assert Digits2(21) == "21" && Digits2(30) == "30" && Digits2(59) == "59";
    BusinessHoursOn("21:30:59", Time(21, 30, 59), true);
  }

  /** One minute outside either bound is rejected. */
  lemma BusinessHoursExcludeOutside()
    ensures CheckBusinessHours(Some(map["reservation_time" := Str("10:29")])) == BadRequest(BusinessHoursMessage)
    ensures CheckBusinessHours(Some(map["reservation_time" := Str("21:31")])) == BadRequest(BusinessHoursMessage)
  {
    assert Digits2(10) == "10" && Digits2(29) == "29";
    BusinessHoursOn("10:29", Time(10, 29, 0), false);
    BusinessHoursWindow(map["reservation_time" := Str("10:29")]);
    assert Digits2(21) == "21" && Digits2(31) == "31";
    BusinessHoursOn("21:31", Time(21, 31, 0), false);
    BusinessHoursWindow(map["reservation_time" := Str("21:31")]);
  }

  /**
   * A reservation payload the create route accepts, stated field by field:
   * the three names present, a date that parses (and is not the epoch day,
   * whose timestamp 0 is falsy), a well-formed time inside business hours,
   * a positive number of people, not a Tuesday, not before `now`, and no
   * status other than "booked".
   */
  predicate AcceptableReservation(f: Fields, now: int)
  {
    && Truthy(Get(f, "first_name"))
    && Truthy(Get(f, "last_name"))
    && Truthy(Get(f, "mobile_number"))
    && DateParsesTruthy(Get(f, "reservation_date"))
    && Get(f, "reservation_time").Str? && MatchesTimePattern(Get(f, "reservation_time").s)
    && Get(f, "people").Num? && Get(f, "people").n > 0
    && (var d := ParseDate(Get(f, "reservation_date").s).value;
        var t := ParseTime(Get(f, "reservation_time").s).value;
        InBusinessHours(t) && Weekday(d) != 2 && InstantMs(d, t) >= now)
    && (!Truthy(Get(f, "status")) || Get(f, "status") == Str("booked"))
  }

  /** The field checks up to `validPeople`, for a present `data` object. */
  lemma FieldChecksPass(req: ResRequest, f: Fields)
    requires req.data == Some(f)
    ensures (&& RunCheck(ValidFirstName, req).Pass?
             && RunCheck(ValidLastName, req).Pass?
             && RunCheck(ValidMobileNumber, req).Pass?
             && RunCheck(ValidDateCheck, req).Pass?
             && RunCheck(HasTime, req).Pass?
             && RunCheck(ValidTimeCheck, req).Pass?
             && RunCheck(ValidPeople, req).Pass?)
            <==>
            (&& Truthy(Get(f, "first_name"))
             && Truthy(Get(f, "last_name"))
             && Truthy(Get(f, "mobile_number"))
             && DateParsesTruthy(Get(f, "reservation_date"))
             && Get(f, "reservation_time").Str? && MatchesTimePattern(Get(f, "reservation_time").s)
             && Get(f, "people").Num? && Get(f, "people").n > 0)
  {
  }

  /** The business-rule checks, once the date and the time are known to be well formed. */
  lemma RuleChecksPass(req: ResRequest, f: Fields)
    requires req.data == Some(f)
    requires DateParsesTruthy(Get(f, "reservation_date"))
    requires Get(f, "reservation_time").Str? && MatchesTimePattern(Get(f, "reservation_time").s)
    ensures (&& RunCheck(ReservationDuringBusHours, req).Pass?
             && RunCheck(ReservationOnTuesday, req).Pass?
             && RunCheck(ReservationIsInPast, req).Pass?
             && RunCheck(PostStatusCheck, req).Pass?)
            <==>
            (&& (var d := ParseDate(Get(f, "reservation_date").s).value;
                 var t := ParseTime(Get(f, "reservation_time").s).value;
                 InBusinessHours(t) && Weekday(d) != 2 && InstantMs(d, t) >= req.now)
             && (!Truthy(Get(f, "status")) || Get(f, "status") == Str("booked")))
  {
    BusinessHoursWindow(f);
  }

  /** The field checks pass exactly when every field is well formed. */
  lemma FieldChainPasses(req: ResRequest, f: Fields)
    requires req.data == Some(f)
    ensures Verdict(FieldChain, req).Pass? <==>
            (&& Truthy(Get(f, "first_name"))
             && Truthy(Get(f, "last_name"))
             && Truthy(Get(f, "mobile_number"))
             && DateParsesTruthy(Get(f, "reservation_date"))
             && Get(f, "reservation_time").Str? && MatchesTimePattern(Get(f, "reservation_time").s)
             && Get(f, "people").Num? && Get(f, "people").n > 0)
  {
    FieldChecksPass(req, f);
    assert Verdict(FieldChain, req).Pass? <==> forall i :: 0 <= i < |FieldChain| ==> RunOn(req)(FieldChain[i]).Pass?;
  }

  /**
   * The field checks report, in route order, a missing first name, last name
   * or mobile number, a date that does not parse, a missing or non-string
   * time, a time off the pattern and a party size that is not a positive
   * number; each with 400.
   */
  lemma FieldChainVerdict(req: ResRequest, f: Fields)
    requires req.data == Some(f)
    ensures Verdict(FieldChain, req) ==
      if !Truthy(Get(f, "first_name")) then BadRequest("first_name is required")
      else if !Truthy(Get(f, "last_name")) then BadRequest("last_name is required")
      else if !Truthy(Get(f, "mobile_number")) then BadRequest("mobile_number is required")
      else if !DateParsesTruthy(Get(f, "reservation_date")) then BadRequest("reservation_date must be valid")
      else if !(Truthy(Get(f, "reservation_time")) && Get(f, "reservation_time").Str?)
      then BadRequest("reservation_time is required")
      else if !MatchesTimePattern(Get(f, "reservation_time").s) then BadRequest("reservation_time must be valid")
      else if !(Get(f, "people").Num? && Get(f, "people").n > 0) then BadRequest("people is required")
      else Pass
  {
    var run := RunOn(req);
    var time := Get(f, "reservation_time");
    if !Truthy(Get(f, "first_name")) {
      FirstFailureIs(FieldChain, run, 0);
    } else if !Truthy(Get(f, "last_name")) {
      FirstFailureIs(FieldChain, run, 1);
    } else if !Truthy(Get(f, "mobile_number")) {
      FirstFailureIs(FieldChain, run, 2);
    } else if !DateParsesTruthy(Get(f, "reservation_date")) {
      FirstFailureIs(FieldChain, run, 3);
    } else if !(Truthy(time) && time.Str?) {
      FirstFailureIs(FieldChain, run, 4);
    } else if !MatchesTimePattern(time.s) {
      FirstFailureIs(FieldChain, run, 5);
    } else if !(Get(f, "people").Num? && Get(f, "people").n > 0) {
      FirstFailureIs(FieldChain, run, 6);
    } else {
      FieldChainPasses(req, f);
    }
  }

  /** The rule checks pass exactly when the business rules hold, on a well-formed date and time. */
  lemma RuleChainPasses(req: ResRequest, f: Fields)
    requires req.data == Some(f)
    requires DateParsesTruthy(Get(f, "reservation_date"))
    requires Get(f, "reservation_time").Str? && MatchesTimePattern(Get(f, "reservation_time").s)
    ensures Verdict(RuleChain, req).Pass? <==>
            (&& (var d := ParseDate(Get(f, "reservation_date").s).value;
                 var t := ParseTime(Get(f, "reservation_time").s).value;
                 InBusinessHours(t) && Weekday(d) != 2 && InstantMs(d, t) >= req.now)
             && (!Truthy(Get(f, "status")) || Get(f, "status") == Str("booked")))
  {
    RuleChecksPass(req, f);
    assert Verdict(RuleChain, req).Pass? <==> forall i :: 0 <= i < |RuleChain| ==> RunOn(req)(RuleChain[i]).Pass?;
  }

  /** The checks the create and edit chains share pass exactly the acceptable payloads. */
  lemma PayloadChecksPass(req: ResRequest, f: Fields)
    requires req.data == Some(f)
    ensures Verdict(FieldChain + RuleChain, req).Pass? <==> AcceptableReservation(f, req.now)
  {
    FirstFailureAppend(FieldChain, RuleChain, RunOn(req));
    FieldChainPasses(req, f);
    if Verdict(FieldChain, req).Pass? {
      RuleChainPasses(req, f);
    }
  }

  /** The create chain passes exactly the acceptable payloads. */
  lemma CreateAcceptsExactly(req: ResRequest)
    ensures Verdict(CreateChain, req).Pass? <==> req.data.Some? && AcceptableReservation(req.data.value, req.now)
  {
    FirstFailureAppend([ValidData], FieldChain + RuleChain, RunOn(req));
    if req.data.Some? {
      PayloadChecksPass(req, req.data.value);
    }
  }

  /**
   * The edit chain passes exactly when the reservation exists and the payload
   * is acceptable; a missing `data` object is not reported but throws.
   */
  lemma ResUpdateAcceptsExactly(req: ResRequest)
    ensures Verdict(ResUpdateChain, req).Pass? <==>
      req.reservationParam != "" && req.found.Some? && req.data.Some? && AcceptableReservation(req.data.value, req.now)
    ensures req.reservationParam != "" && req.found.Some? && req.data.None? ==> Verdict(ResUpdateChain, req) == Crash
  {
    FirstFailureAppend([ReservationIdExists], FieldChain + RuleChain, RunOn(req));
    if req.data.Some? {
      PayloadChecksPass(req, req.data.value);
    } else if req.reservationParam != "" && req.found.Some? {
      FirstFailureAppend(FieldChain, RuleChain, RunOn(req));
      FirstFailureIs(FieldChain, RunOn(req), 0);
    }
  }

  /**
   * The create chain reports a missing body first; then the first failing
   * field check; then, on well-formed fields, the first broken business rule.
   */
  lemma CreateVerdict(req: ResRequest)
    ensures req.data.None? ==> Verdict(CreateChain, req) == BadRequest("Reservation information required")
    ensures req.data.Some? ==>
      Verdict(CreateChain, req) ==
        if !Verdict(FieldChain, req).Pass? then Verdict(FieldChain, req) else Verdict(RuleChain, req)
  {
    FirstFailureAppend([ValidData], FieldChain + RuleChain, RunOn(req));
    FirstFailureAppend(FieldChain, RuleChain, RunOn(req));
  }

  /**
   * The edit chain reports an unknown reservation first (404); without a
   * body it then throws; otherwise it reports what the create chain's field
   * and rule checks report.
   */
  lemma ResUpdateVerdict(req: ResRequest)
    ensures !(req.reservationParam != "" && req.found.Some?) ==>
      Verdict(ResUpdateChain, req) == NotFound("Reservation " + req.reservationParam + " cannot be found")
    ensures req.reservationParam != "" && req.found.Some? && req.data.None? ==> Verdict(ResUpdateChain, req) == Crash
    ensures req.reservationParam != "" && req.found.Some? && req.data.Some? ==>
      Verdict(ResUpdateChain, req) ==
        if !Verdict(FieldChain, req).Pass? then Verdict(FieldChain, req) else Verdict(RuleChain, req)
  {
    FirstFailureAppend([ReservationIdExists], FieldChain + RuleChain, RunOn(req));
    FirstFailureAppend(FieldChain, RuleChain, RunOn(req));
    if req.data.None? {
      FirstFailureIs(FieldChain, RunOn(req), 0);
    }
  }

  /** A reservation on 1970-01-01 is rejected: `Date.parse` gives 0 for it, which is falsy. */
  lemma EpochDateRejected()
    ensures CheckValidDate(Some(map["reservation_date" := Str("1970-01-01")])) == BadRequest("reservation_date must be valid")
  {
    assert Digits2(19) == "19" && Digits2(70) == "70" && Digits2(1) == "01";
    assert FormatDate(Date(1970, 1, 1)) == "1970-01-01";
    ParseFormatDate(Date(1970, 1, 1));
    EpochIsThursday();
  }

  /** A complete payload for two people with the given date and time strings and no status. */
  predicate PayloadFor(f: Fields, date: string, time: string)
  {
    && Get(f, "first_name") == Str("A") && Get(f, "last_name") == Str("B")
    && Get(f, "mobile_number") == Str("555")
    && Get(f, "reservation_date") == Str(date) && Get(f, "reservation_time") == Str(time)
    && Get(f, "people") == Num(2) && Get(f, "status") == Absent
  }

  lemma JuneFourthIsTuesday()
    ensures ParseDate("2024-06-04") == Some(Date(2024, 6, 4))
    ensures DayNumber(Date(2024, 6, 4)) == 19878 && Weekday(Date(2024, 6, 4)) == 2
  {
    assert Digits2(20) == "20" && Digits2(24) == "24" && Digits2(6) == "06" && Digits2(4) == "04";
    assert FormatDate(Date(2024, 6, 4)) == "2024-06-04";
    ParseFormatDate(Date(2024, 6, 4));
  }

  lemma JuneFifthIsWednesday()
    ensures ParseDate("2024-06-05") == Some(Date(2024, 6, 5))
    ensures DayNumber(Date(2024, 6, 5)) == 19879 && Weekday(Date(2024, 6, 5)) == 3
  {
    assert Digits2(20) == "20" && Digits2(24) == "24" && Digits2(6) == "06" && Digits2(5) == "05";
    assert FormatDate(Date(2024, 6, 5)) == "2024-06-05";
    ParseFormatDate(Date(2024, 6, 5));
  }

  lemma NoonParses()
    ensures MatchesTimePattern("12:00") && ParseTime("12:00") == Some(Time(12, 0, 0))
  {
    assert Digits2(12) == "12" && Digits2(0) == "00";
    FormattedTimeMatches(Time(12, 0, 0), false);
  }

  lemma NineParses()
    ensures MatchesTimePattern("09:00") && ParseTime("09:00") == Some(Time(9, 0, 0))
  {
    assert Digits2(9) == "09" && Digits2(0) == "00";
    FormattedTimeMatches(Time(9, 0, 0), false);
  }

  /** Wednesday 2024-06-05 at noon is accepted by any clock up to that very instant. */
  lemma WednesdayNoonAccepted(f: Fields, now: int)
    requires PayloadFor(f, "2024-06-05", "12:00")
    requires now <= InstantMs(Date(2024, 6, 5), Time(12, 0, 0))
    ensures Verdict(CreateChain, ResRequest("", Some(f), None, now)) == Pass
  {
    JuneFifthIsWednesday();
    NoonParses();
    assert InBusinessHours(Time(12, 0, 0));
    assert AcceptableReservation(f, now);
    CreateAcceptsExactly(ResRequest("", Some(f), None, now));
  }

  /**
   * Once `data` is present and every field is well formed, the create chain
   * reports what the business-rule checks report.
   */
  lemma CreateChainAfterFields(req: ResRequest, f: Fields)
    requires req.data == Some(f)
    requires Verdict(FieldChain, req).Pass?
    ensures Verdict(CreateChain, req) == Verdict(RuleChain, req)
  {
    FirstFailureAppend([ValidData], FieldChain + RuleChain, RunOn(req));
    FirstFailureAppend(FieldChain, RuleChain, RunOn(req));
  }

  /**
   * A complete payload whose date parses and whose time is well formed passes
   * every field check, so the create chain reports what the rule checks report.
   */
  lemma PayloadForPassesFields(f: Fields, date: string, time: string, now: int)
    requires PayloadFor(f, date, time)
    requires DateParsesTruthy(Str(date)) && MatchesTimePattern(time)
    ensures Verdict(FieldChain, ResRequest("", Some(f), None, now)).Pass?
    ensures Verdict(CreateChain, ResRequest("", Some(f), None, now)) == Verdict(RuleChain, ResRequest("", Some(f), None, now))
  {
    var req := ResRequest("", Some(f), None, now);
    FieldChainPasses(req, f);
    CreateChainAfterFields(req, f);
  }

  /**
   * On a well-formed date and time, the rule checks report, in route order,
   * a time outside business hours, a Tuesday, an instant before the clock and
   * a supplied status other than "booked".
   */
  lemma RuleChainVerdict(req: ResRequest, f: Fields, d: Date, t: Time)
    requires req.data == Some(f)
    requires Get(f, "reservation_date").Str? && ParseDate(Get(f, "reservation_date").s) == Some(d)
    requires Get(f, "reservation_time").Str? && MatchesTimePattern(Get(f, "reservation_time").s)
    requires ParseTime(Get(f, "reservation_time").s) == Some(t)
    ensures Verdict(RuleChain, req) ==
      if !InBusinessHours(t) then BadRequest(BusinessHoursMessage)
      else if Weekday(d) == 2 then BadRequest("The restaurant is closed on Tuesday!")
      else if InstantMs(d, t) < req.now then BadRequest("Reservation must be made for the future")
      else if Truthy(Get(f, "status")) && Get(f, "status") != Str("booked")
      then BadRequest("Status cannot be " + JsString(Get(f, "status")))
      else Pass
  {
    BusinessHoursWindow(f);
    var run := RunOn(req);
    if !InBusinessHours(t) {
      FirstFailureIs(RuleChain, run, 0);
    } else if Weekday(d) == 2 {
      FirstFailureIs(RuleChain, run, 1);
    } else if InstantMs(d, t) < req.now {
      FirstFailureIs(RuleChain, run, 2);
    } else if Truthy(Get(f, "status")) && Get(f, "status") != Str("booked") {
      FirstFailureIs(RuleChain, run, 3);
    } else {
      assert forall i :: 0 <= i < |RuleChain| ==> run(RuleChain[i]).Pass?;
    }
  }

  /**
   * For a complete payload with a well-formed date and time, the create
   * chain's verdict is decided by the business rules in route order: hours,
   * then weekday, then the clock.
   */
  lemma RulesDecideInOrder(f: Fields, date: string, time: string, d: Date, t: Time, now: int)
    requires PayloadFor(f, date, time)
    requires ParseDate(date) == Some(d) && DayNumber(d) != 0
    requires MatchesTimePattern(time) && ParseTime(time) == Some(t)
    ensures Verdict(CreateChain, ResRequest("", Some(f), None, now)) ==
      if !InBusinessHours(t) then BadRequest(BusinessHoursMessage)
      else if Weekday(d) == 2 then BadRequest("The restaurant is closed on Tuesday!")
      else if InstantMs(d, t) < now then BadRequest("Reservation must be made for the future")
      else Pass
  {
    assert DateParsesTruthy(Str(date));
    PayloadForPassesFields(f, date, time, now);
    RuleChainVerdict(ResRequest("", Some(f), None, now), f, d, t);
  }

  /** The same payload one day earlier, a Tuesday, is turned away. */
  lemma TuesdayRejected(f: Fields, now: int)
    requires PayloadFor(f, "2024-06-04", "12:00")
    ensures Verdict(CreateChain, ResRequest("", Some(f), None, now))
         == BadRequest("The restaurant is closed on Tuesday!")
  {
    JuneFourthIsTuesday();
    NoonParses();
    RulesDecideInOrder(f, "2024-06-04", "12:00", Date(2024, 6, 4), Time(12, 0, 0), now);
  }

  /**
   * On a Tuesday at 09:00 the business-hour error is the one reported: the
   * chain checks the hour before the weekday.
   */
  lemma BusinessHoursCheckedBeforeTuesday(f: Fields, now: int)
    requires PayloadFor(f, "2024-06-04", "09:00")
    ensures Verdict(CreateChain, ResRequest("", Some(f), None, now)) == BadRequest(BusinessHoursMessage)
  {
    JuneFourthIsTuesday();
    NineParses();
    RulesDecideInOrder(f, "2024-06-04", "09:00", Date(2024, 6, 4), Time(9, 0, 0), now);
  }
}
