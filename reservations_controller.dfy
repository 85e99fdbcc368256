/**
 * The reservation route handlers: create, status update, full edit and read.
 * Each runs its chain of checks, and only when every check passes writes the
 * store; the reply and the new state are those of a specification function
 * over the reservations relation.
 */
module ReservationsController {
  import opened Wrappers
  import opened Values
  import opened Pipeline
  import opened Records
  import opened Service
  import opened Calendar
  import opened ReservationChecks

  /** The row `create` builds from an accepted payload: the six fields and status "booked". */
  function NewReservation(id: Id, f: Fields): Reservation
    requires Get(f, "people").Num?
  {
    Reservation(id, Get(f, "first_name"), Get(f, "last_name"), Get(f, "mobile_number"),
                Get(f, "reservation_date"), Get(f, "reservation_time"), Get(f, "people").n, Str("booked"))
  }

  /** `reservationIdExists`'s lookup: the route parameter selects the row. */
  function Lookup(rs: map<Id, Reservation>, param: string, data: Option<Fields>, now: int): ResRequest
  {
    ResRequest(param, data, FindReservation(rs, Str(param)), now)
  }

  /** `POST /reservations`. */
  method Create(store: Store, data: Option<Fields>, now: int) returns (resp: Response<Reservation>)
    requires store.Valid()
    modifies store
    ensures store.Valid()
    ensures store.tables == old(store.tables)
    ensures var v := Verdict(CreateChain, ResRequest("", data, None, now));
      if v.Pass? then
        && data.Some? && Get(data.value, "people").Num?
        && resp == Success(201, NewReservation(old(store.nextReservationId), data.value))
        && old(store.nextReservationId) !in old(store.reservations)
        && store.reservations == old(store.reservations)[old(store.nextReservationId) := resp.data]
      else
        resp == Reject(v) && store.reservations == old(store.reservations)
  {
    var req := ResRequest("", data, None, now);
    var v := Verdict(CreateChain, req);
    if !v.Pass? {
      return Reject(v);
    }
    CreateAcceptsExactly(req);
    var row := store.CreateReservation(NewReservation(store.nextReservationId, data.value));
    resp := Success(201, row);
  }

  /** A created reservation is "booked" and holds the payload's six fields, whatever status it sent. */
  lemma CreatedReservationIsBooked(id: Id, req: ResRequest)
    requires Verdict(CreateChain, req).Pass?
    ensures req.data.Some? && Get(req.data.value, "people").Num?
    ensures var r := NewReservation(id, req.data.value);
      && r.status == Str("booked")
      && r.people == Get(req.data.value, "people").n > 0
      && r.reservation_id == id
      && r.first_name == Get(req.data.value, "first_name") && Truthy(r.first_name)
      && r.last_name == Get(req.data.value, "last_name") && Truthy(r.last_name)
      && r.mobile_number == Get(req.data.value, "mobile_number") && Truthy(r.mobile_number)
      && r.reservation_date == Get(req.data.value, "reservation_date") && DateParsesTruthy(r.reservation_date)
      && r.reservation_time == Get(req.data.value, "reservation_time")
      && r.reservation_time.Str? && MatchesTimePattern(r.reservation_time.s)
    ensures Truthy(Get(req.data.value, "status")) ==> Get(req.data.value, "status") == Str("booked")
  {
    CreateAcceptsExactly(req);
  }

  /** `PUT /reservations/:reservation_id/status`: the reply and the new reservations relation. */
  function StatusUpdateSpec(rs: map<Id, Reservation>, param: string, data: Option<Fields>): (Response<Reservation>, map<Id, Reservation>)
  {
    var req := Lookup(rs, param, data, 0);
    var v := Verdict(UpdateChain, req);
    if !v.Pass? then (Reject(v), rs)
    else
      assert RunOn(req)(UpdateChain[0]).Pass? && RunOn(req)(UpdateChain[1]).Pass?;
      var r := req.found.value.(status := Get(data.value, "status"));
      (Success(200, r), WriteReservation(rs, Some(r.reservation_id), r))
  }

  method UpdateStatus(store: Store, param: string, data: Option<Fields>) returns (resp: Response<Reservation>)
    requires store.Valid()
    modifies store
    ensures store.Valid()
    ensures store.tables == old(store.tables)
    ensures (resp, store.reservations) == StatusUpdateSpec(old(store.reservations), param, data)
  {
    var found := store.ReadReservation(Str(param));
    var req := ResRequest(param, data, found, 0);
    var v := Verdict(UpdateChain, req);
    if !v.Pass? {
      return Reject(v);
    }
    assert RunOn(req)(UpdateChain[0]).Pass? && RunOn(req)(UpdateChain[1]).Pass?;
    var updated := found.value.(status := Get(data.value, "status"));
    WrittenReservationFound(store.reservations, updated);
    var stored := store.UpdateReservation(updated);
    resp := Success(200, stored.value);
  }

  /** An id that selects no reservation is a 404, and nothing changes. */
  lemma StatusUpdateMissing(rs: map<Id, Reservation>, param: string, data: Option<Fields>)
    requires FindReservation(rs, Str(param)).None?
    ensures StatusUpdateSpec(rs, param, data) == (Failure(HttpError("Reservation " + param + " cannot be found", 404)), rs)
  {
    FirstFailureIs(UpdateChain, RunOn(Lookup(rs, param, data, 0)), 0);
  }

  /** An unrecognised target status is reported before the finished check, so even for a finished reservation. */
  lemma StatusUpdateUnknownStatus(rs: map<Id, Reservation>, param: string, f: Fields)
    requires FindReservation(rs, Str(param)).Some?
    requires !KnownStatus(Get(f, "status"))
    ensures StatusUpdateSpec(rs, param, Some(f))
         == (Failure(HttpError("Unknown status " + JsString(Get(f, "status")), 400)), rs)
  {
    FirstFailureIs(UpdateChain, RunOn(Lookup(rs, param, Some(f), 0)), 1);
  }

  /** A finished reservation cannot be moved to any status. */
  lemma StatusUpdateFinished(rs: map<Id, Reservation>, param: string, f: Fields)
    requires FindReservation(rs, Str(param)).Some? && FindReservation(rs, Str(param)).value.status == Str("finished")
    requires KnownStatus(Get(f, "status"))
    ensures StatusUpdateSpec(rs, param, Some(f))
         == (Failure(HttpError("A finished reservation cannot be updated", 400)), rs)
  {
    FirstFailureIs(UpdateChain, RunOn(Lookup(rs, param, Some(f), 0)), 2);
  }

  /**
   * The update succeeds exactly for a found, unfinished reservation and a
   * known status, whatever the current status is; then only `status` changes.
   */
  lemma StatusUpdateApplies(rs: map<Id, Reservation>, param: string, data: Option<Fields>)
    requires WellKeyed(DB(map[], rs))
    ensures var (resp, rs') := StatusUpdateSpec(rs, param, data);
      var found := FindReservation(rs, Str(param));
      && (resp.Success? <==>
            found.Some? && data.Some? && KnownStatus(Get(data.value, "status"))
            && found.value.status != Str("finished"))
      && (resp.Success? ==>
            && resp.code == 200
            && resp.data == found.value.(status := Get(data.value, "status"))
            && rs' == rs[found.value.reservation_id := resp.data])
      && (!resp.Success? ==> rs' == rs)
  {
    var req := Lookup(rs, param, data, 0);
    assert Verdict(UpdateChain, req).Pass? <==>
      RunOn(req)(UpdateChain[0]).Pass? && RunOn(req)(UpdateChain[1]).Pass? && RunOn(req)(UpdateChain[2]).Pass?;
    FindByKey(DB(map[], rs), Str(param));
  }

  /** No transition graph is enforced: a cancelled reservation can be set back to "seated". */
  lemma CancelledCanBeReseated(rs: map<Id, Reservation>, param: string, f: Fields)
    requires WellKeyed(DB(map[], rs))
    requires FindReservation(rs, Str(param)).Some? && FindReservation(rs, Str(param)).value.status == Str("cancelled")
    requires Get(f, "status") == Str("seated")
    ensures StatusUpdateSpec(rs, param, Some(f)).0.Success?
    ensures StatusUpdateSpec(rs, param, Some(f)).0.data.status == Str("seated")
  {
    StatusUpdateApplies(rs, param, Some(f));
  }

  /** The row `resUpdate` stores: the body's fields, under the id of the row the route selected. */
  function Edited(current: Reservation, f: Fields): Reservation
    requires Get(f, "people").Num?
  {
    Reservation(current.reservation_id, Get(f, "first_name"), Get(f, "last_name"), Get(f, "mobile_number"),
                Get(f, "reservation_date"), Get(f, "reservation_time"), Get(f, "people").n,
                if Get(f, "status") == Absent then current.status else Get(f, "status"))
  }

  /** What a passing edit chain guarantees the handler: a loaded row, a body, a number of people. */
  lemma ResUpdatePassFacts(req: ResRequest)
    requires Verdict(ResUpdateChain, req).Pass?
    ensures req.found.Some? && req.data.Some? && Get(req.data.value, "people").Num?
  {
    ResUpdateAcceptsExactly(req);
  }

  /** `PUT /reservations/:reservation_id`: the reply and the new reservations relation. */
  function ResUpdateSpec(rs: map<Id, Reservation>, param: string, data: Option<Fields>, now: int): (Response<Reservation>, map<Id, Reservation>)
  {
    var req := Lookup(rs, param, data, now);
    var v := Verdict(ResUpdateChain, req);
    if !v.Pass? then (Reject(v), rs)
    else
      ResUpdatePassFacts(req);
      var r := Edited(req.found.value, data.value);
      (Success(200, r), WriteReservation(rs, Some(r.reservation_id), r))
  }

  lemma ResUpdateSpecCases(rs: map<Id, Reservation>, param: string, data: Option<Fields>, now: int)
    ensures var req := Lookup(rs, param, data, now);
      var v := Verdict(ResUpdateChain, req);
      && (!v.Pass? ==> ResUpdateSpec(rs, param, data, now) == (Reject(v), rs))
      && (v.Pass? ==>
            && req.found.Some? && req.data.Some? && Get(req.data.value, "people").Num?
            && var row := Edited(req.found.value, req.data.value);
               ResUpdateSpec(rs, param, data, now) == (Success(200, row), WriteReservation(rs, Some(row.reservation_id), row)))
  {
    var req := Lookup(rs, param, data, now);
    if Verdict(ResUpdateChain, req).Pass? {
      ResUpdatePassFacts(req);
    }
  }

  method ResUpdate(store: Store, param: string, data: Option<Fields>, now: int) returns (resp: Response<Reservation>)
    requires store.Valid()
    modifies store
    ensures store.Valid()
    ensures store.tables == old(store.tables)
    ensures (resp, store.reservations) == ResUpdateSpec(old(store.reservations), param, data, now)
  {
    ResUpdateSpecCases(store.reservations, param, data, now);
    var found := store.ReadReservation(Str(param));
    var req := ResRequest(param, data, found, now);
    assert req == Lookup(store.reservations, param, data, now);
    var v := Verdict(ResUpdateChain, req);
    if !v.Pass? {
      return Reject(v);
    }
    var row := Edited(found.value, data.value);
    WrittenReservationFound(store.reservations, row);
    var stored := store.UpdateReservation(row);
    resp := Success(200, stored.value);
  }

  /**
   * A full edit is checked for the id first; it succeeds exactly for an
   * existing reservation and an acceptable payload, and then stores the
   * payload's fields under the route's id. Without `data` it throws.
   */
  lemma ResUpdateStoresPayload(rs: map<Id, Reservation>, param: string, data: Option<Fields>, now: int)
    requires WellKeyed(DB(map[], rs))
    ensures var (resp, rs') := ResUpdateSpec(rs, param, data, now);
      var found := FindReservation(rs, Str(param));
      && (found.None? ==> resp == Failure(HttpError("Reservation " + param + " cannot be found", 404)))
      && (found.Some? && data.None? ==> resp == ServerError)
      && (resp.Success? <==> found.Some? && data.Some? && AcceptableReservation(data.value, now))
      && (resp.Success? ==>
            && resp.data.reservation_id == KeyOf(Str(param)).value
            && resp.data.first_name == Get(data.value, "first_name")
            && resp.data.last_name == Get(data.value, "last_name")
            && resp.data.mobile_number == Get(data.value, "mobile_number")
            && resp.data.reservation_date == Get(data.value, "reservation_date")
            && resp.data.reservation_time == Get(data.value, "reservation_time")
            && Num(resp.data.people) == Get(data.value, "people")
            && resp.data.status
               == (if Get(data.value, "status") == Absent then found.value.status else Get(data.value, "status"))
            && rs' == rs[resp.data.reservation_id := resp.data])
      && (!resp.Success? ==> rs' == rs)
  {
    var req := Lookup(rs, param, data, now);
    ResUpdateAcceptsExactly(req);
    FindByKey(DB(map[], rs), Str(param));
    if req.found.None? {
      FirstFailureIs(ResUpdateChain, RunOn(req), 0);
    }
  }

  /**
   * The edit route has no finished check: an acceptable payload that sends
   * status "booked" turns a finished reservation back into a booked one.
   */
  lemma EditRevivesFinished(rs: map<Id, Reservation>, param: string, f: Fields, now: int)
    requires WellKeyed(DB(map[], rs))
    requires FindReservation(rs, Str(param)).Some? && FindReservation(rs, Str(param)).value.status == Str("finished")
    requires AcceptableReservation(f, now) && Get(f, "status") == Str("booked")
    ensures var (resp, rs') := ResUpdateSpec(rs, param, Some(f), now);
      var k := FindReservation(rs, Str(param)).value.reservation_id;
      && resp.Success?
      && k in rs' && rs[k].status == Str("finished") && rs'[k].status == Str("booked")
  {
    ResUpdateStoresPayload(rs, param, Some(f), now);
    FindByKey(DB(map[], rs), Str(param));
  }

  /** `GET /reservations/:reservation_id`. */
  function ReadSpec(rs: map<Id, Reservation>, param: string): Response<Reservation>
  {
    var req := Lookup(rs, param, None, 0);
    var v := Verdict(ReadChain, req);
    if !v.Pass? then Reject(v)
    else
      assert RunOn(req)(ReadChain[0]).Pass?;
      Success(200, req.found.value)
  }

  method Read(store: Store, param: string) returns (resp: Response<Reservation>)
    requires store.Valid()
    ensures resp == ReadSpec(store.reservations, param)
  {
    var found := store.ReadReservation(Str(param));
    var req := ResRequest(param, None, found, 0);
    var v := Verdict(ReadChain, req);
    if !v.Pass? {
      return Reject(v);
    }
    assert RunOn(req)(ReadChain[0]).Pass?;
    resp := Success(200, found.value);
  }

  /** Reading by the decimal id returns that reservation; any other parameter is a 404. */
  lemma ReadFindsById(rs: map<Id, Reservation>, param: string)
    requires WellKeyed(DB(map[], rs))
    ensures ReadSpec(rs, param).Success? <==> KeyOf(Str(param)).Some? && KeyOf(Str(param)).value in rs
    ensures ReadSpec(rs, param).Success? ==> ReadSpec(rs, param).data == rs[KeyOf(Str(param)).value]
    ensures !ReadSpec(rs, param).Success? ==> ReadSpec(rs, param) == Failure(HttpError("Reservation " + param + " cannot be found", 404))
  {
    var req := Lookup(rs, param, None, 0);
    assert Verdict(ReadChain, req).Pass? <==> RunOn(req)(ReadChain[0]).Pass?;
    FindByKey(DB(map[], rs), Str(param));
    if !Verdict(ReadChain, req).Pass? {
      FirstFailureIs(ReadChain, RunOn(req), 0);
    }
  }
}
