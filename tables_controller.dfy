/**
 * The table route handlers: list, create, read, seat (assign a reservation)
 * and free (finish it). The seat and free handlers change two relations; each
 * is proved equal to a specification function over the whole database, and
 * the lemmas below say what those functions do and which invariant of the
 * seating relation they keep.
 */
module TablesController {
  import opened Wrappers
  import opened Values
  import opened Pipeline
  import opened Records
  import opened Service
  import opened TableChecks
  import ReservationsController

  /* ---------------------------------------------------------------- list */

  /** `GET /tables`: every table, by name. */
  method List(store: Store) returns (resp: Response<seq<Table>>)
    requires store.Valid()
    ensures resp.Success? && resp.code == 200
    ensures SortedByName(resp.data) && |resp.data| == |store.tables|
    ensures forall k :: k in store.tables ==> store.tables[k] in resp.data
    ensures forall t :: t in resp.data ==> t.table_id in store.tables && store.tables[t.table_id] == t
  {
    var ts := store.List();
    resp := Success(200, ts);
  }

  /* -------------------------------------------------------------- create */

  /**
   * The `reservation_id` column of a new table, from the body's value: a
   * missing or null value is null, an id is that id, and anything else is a
   * value the database refuses (the outer None).
   */
  function ReservationColumn(v: Value): (c: Option<Option<Id>>)
    ensures c == Some(None) <==> v.Absent? || v.Null?
    ensures forall k :: c == Some(Some(k)) <==> KeyOf(v) == Some(k)
  {
    if v.Absent? || v.Null? then Some(None)
    else if KeyOf(v).Some? then Some(KeyOf(v))
    else None
  }

  /** The row `create` inserts: name, capacity and reservation column from the body. */
  function NewTable(id: Id, f: Fields): Option<Table>
    requires Get(f, "table_name").Str? && Get(f, "capacity").Num?
  {
    match ReservationColumn(Get(f, "reservation_id"))
    case None => None
    case Some(c) => Some(Table(id, Get(f, "table_name").s, Get(f, "capacity").n, c))
  }

  function CreateRequest(data: Option<Fields>): TableRequest
  {
    TableRequest("", data, None, None)
  }

  /** `POST /tables`. */
  method Create(store: Store, data: Option<Fields>) returns (resp: Response<Table>)
    requires store.Valid()
    modifies store
    ensures store.Valid()
    ensures store.reservations == old(store.reservations)
    ensures var v := Verdict(CreateChain, CreateRequest(data));
      if !v.Pass? then resp == Reject(v) && store.tables == old(store.tables)
      else
        && data.Some? && Get(data.value, "table_name").Str? && Get(data.value, "capacity").Num?
        && match NewTable(old(store.nextTableId), data.value)
           case None => resp == ServerError && store.tables == old(store.tables)
           case Some(t) =>
             && resp == Success(201, t)
             && old(store.nextTableId) !in old(store.tables)
             && store.tables == old(store.tables)[t.table_id := t]
  {
    var req := CreateRequest(data);
    var v := Verdict(CreateChain, req);
    if !v.Pass? {
      return Reject(v);
    }
    CreateTableChecks(req);
    var f := data.value;
    var column := ReservationColumn(Get(f, "reservation_id"));
    if column.None? {
      return ServerError;
    }
    var t := store.Create(Get(f, "table_name").s, Get(f, "capacity").n, column.value);
    resp := Success(201, t);
  }

  /**
   * A created table has the body's name (two characters or more), its
   * positive capacity, and as its reservation column null for a missing or
   * null value and the id for a value that denotes one; any other value is
   * refused by the insert.
   */
  lemma CreatedTableFields(id: Id, data: Option<Fields>)
    requires Verdict(CreateChain, CreateRequest(data)).Pass?
    ensures data.Some? && Get(data.value, "table_name").Str? && Get(data.value, "capacity").Num?
    ensures var v := Get(data.value, "reservation_id");
      NewTable(id, data.value).Some? <==> v.Absent? || v.Null? || KeyOf(v).Some?
    ensures NewTable(id, data.value).Some? ==>
      var t := NewTable(id, data.value).value;
      var v := Get(data.value, "reservation_id");
      && t.table_id == id
      && t.table_name == Get(data.value, "table_name").s && |t.table_name| > 1
      && t.capacity == Get(data.value, "capacity").n > 0
      && t.reservation_id == (if v.Absent? || v.Null? then None else KeyOf(v))
  {
    CreateTableChecks(CreateRequest(data));
  }

  /* ---------------------------------------------------------------- read */

  /** `GET /tables/:table_id`. */
  function ReadSpec(tables: map<Id, Table>, param: string): Response<Table>
  {
    var req := TableRequest(param, None, FindTable(tables, Str(param)), None);
    var v := Verdict(ReadChain, req);
    if !v.Pass? then Reject(v)
    else
      assert RunOn(req)(ReadChain[0]).Pass?;
      Success(200, req.table.value)
  }

  method Read(store: Store, param: string) returns (resp: Response<Table>)
    requires store.Valid()
    ensures resp == ReadSpec(store.tables, param)
  {
    var table := store.Read(Str(param));
    var req := TableRequest(param, None, table, None);
    var v := Verdict(ReadChain, req);
    if !v.Pass? {
      return Reject(v);
    }
    assert RunOn(req)(ReadChain[0]).Pass?;
    resp := Success(200, table.value);
  }

  /** The parameter's id selects the table returned; any other parameter is a 404 naming it. */
  lemma ReadFindsTable(tables: map<Id, Table>, param: string)
    requires WellKeyed(DB(tables, map[]))
    ensures var resp := ReadSpec(tables, param);
      && (resp.Success? <==> KeyOf(Str(param)).Some? && KeyOf(Str(param)).value in tables)
      && (resp.Success? ==> resp.code == 200 && resp.data.table_id == KeyOf(Str(param)).value
                            && resp.data == tables[resp.data.table_id])
      && (!resp.Success? ==> resp == Failure(HttpError("table_id " + param + " does not exist", 404)))
  {
    var req := TableRequest(param, None, FindTable(tables, Str(param)), None);
    if req.table.None? {
      FirstFailureIs(ReadChain, RunOn(req), 0);
    }
  }

  /* ---------------------------------------------------------------- seat */

  /** What `validTable` and `validReservation` load for a seat request. */
  function SeatRequest(db: DB, param: string, data: Option<Fields>): TableRequest
  {
    TableRequest(param, data, FindTable(db.tables, Str(param)),
                 if data.Some? then FindReservation(db.reservations, Get(data.value, "reservation_id")) else None)
  }

  /**
   * When a seat may go ahead: the table exists and is free, and the body
   * names an existing reservation that is not seated and fits the table.
   */
  predicate SeatAllowed(db: DB, param: string, data: Option<Fields>)
  {
    && FindTable(db.tables, Str(param)).Some?
    && data.Some?
    && FindReservation(db.reservations, Get(data.value, "reservation_id")).Some?
    && var t := FindTable(db.tables, Str(param)).value;
       var r := FindReservation(db.reservations, Get(data.value, "reservation_id")).value;
       && r.status != Str("seated")
       && r.people <= t.capacity
       && t.reservation_id.None?
  }

  /** What a passing seat chain guarantees about the request. */
  lemma SeatPassFacts(req: TableRequest)
    requires Verdict(SeatChain, req).Pass?
    ensures req.table.Some? && req.data.Some? && req.reservation.Some?
    ensures req.reservation.value.status != Str("seated")
    ensures req.reservation.value.people <= req.table.value.capacity
    ensures req.table.value.reservation_id.None?
  {
    var run := RunOn(req);
    assert run(SeatChain[0]).Pass? && run(SeatChain[1]).Pass? && run(SeatChain[3]).Pass?;
    assert run(SeatChain[4]).Pass? && run(SeatChain[5]).Pass? && run(SeatChain[6]).Pass?;
  }

  /** The seat chain passes exactly when the seat is allowed. */
  lemma SeatVerdict(db: DB, param: string, data: Option<Fields>)
    ensures Verdict(SeatChain, SeatRequest(db, param, data)).Pass? <==> SeatAllowed(db, param, data)
  {
    var req := SeatRequest(db, param, data);
    if SeatAllowed(db, param, data) {
      assert KeyOf(Get(data.value, "reservation_id")).Some?;
      assert forall i :: 0 <= i < |SeatChain| ==> RunOn(req)(SeatChain[i]).Pass?;
    }
    if Verdict(SeatChain, req).Pass? {
      SeatPassFacts(req);
    }
  }

  /** The key the body's `reservation_id` denotes, for an allowed seat. */
  function SeatKey(db: DB, param: string, data: Option<Fields>): Id
    requires SeatAllowed(db, param, data)
  {
    KeyOf(Get(data.value, "reservation_id")).value
  }

  /** The database after an allowed seat: the table references the reservation, which is "seated". */
  function Seated(db: DB, param: string, data: Option<Fields>): DB
    requires SeatAllowed(db, param, data)
  {
    var t := FindTable(db.tables, Str(param)).value;
    var r := FindReservation(db.reservations, Get(data.value, "reservation_id")).value;
    var key := SeatKey(db, param, data);
    DB(WriteTable(db.tables, Table(t.table_id, t.table_name, t.capacity, Some(key))),
       WriteReservation(db.reservations, Some(key), r.(status := Str("seated"))))
  }

  /** `PUT /tables/:table_id/seat`: the reply (the table read back) and the new database. */
  function SeatSpec(db: DB, param: string, data: Option<Fields>): (Response<Option<Table>>, DB)
  {
    var v := Verdict(SeatChain, SeatRequest(db, param, data));
    if !v.Pass? then (Reject(v), db)
    else
      SeatVerdict(db, param, data);
      var db' := Seated(db, param, data);
      (Success(200, FindTable(db'.tables, Num(FindTable(db.tables, Str(param)).value.table_id))), db')
  }

  method Seat(store: Store, param: string, data: Option<Fields>) returns (resp: Response<Option<Table>>)
    requires store.Valid()
    modifies store
    ensures store.Valid()
    ensures (resp, store.Snapshot()) == SeatSpec(old(store.Snapshot()), param, data)
  {
    var table := store.Read(Str(param));
    var reservation: Option<Reservation> := None;
    if data.Some? {
      reservation := store.ReadReservation(Get(data.value, "reservation_id"));
    }
    var req := TableRequest(param, data, table, reservation);
    assert req == SeatRequest(store.Snapshot(), param, data);
    var v := Verdict(SeatChain, req);
    if !v.Pass? {
      return Reject(v);
    }
    SeatVerdict(store.Snapshot(), param, data);
    var key := KeyOf(Get(data.value, "reservation_id")).value;
    var t := table.value;
    var updated := store.Update(Table(t.table_id, t.table_name, t.capacity, Some(key)),
                                reservation.value.(status := Str("seated")));
    resp := Success(200, updated);
  }

  /**
   * A seat succeeds exactly when it is allowed; then the table references
   * the reservation, the reservation is "seated", the reply is the updated
   * table and nothing else changes. A refused seat changes nothing.
   */
  lemma SeatSucceedsExactly(db: DB, param: string, data: Option<Fields>)
    requires WellKeyed(db)
    ensures var (resp, db') := SeatSpec(db, param, data);
      && (resp.Success? <==> SeatAllowed(db, param, data))
      && (!resp.Success? ==> db' == db)
  {
    SeatVerdict(db, param, data);
  }

  lemma SeatEffect(db: DB, param: string, data: Option<Fields>)
    requires WellKeyed(db)
    requires SeatAllowed(db, param, data)
    ensures var (resp, db') := SeatSpec(db, param, data);
      var t := FindTable(db.tables, Str(param)).value;
      var k := SeatKey(db, param, data);
      && k in db.reservations && t.table_id in db.tables
      && db'.tables == db.tables[t.table_id := t.(reservation_id := Some(k))]
      && db'.reservations == db.reservations[k := db.reservations[k].(status := Str("seated"))]
      && resp == Success(200, Some(db'.tables[t.table_id]))
      && WellKeyed(db')
  {
    SeatVerdict(db, param, data);
    FindByKey(db, Str(param));
    FindByKey(db, Get(data.value, "reservation_id"));
  }

  /**
   * The seat checks report the first failure in route order: a missing table
   * before a missing body, an already seated reservation before a capacity
   * shortfall, a capacity shortfall before an occupied table.
   */
  lemma SeatMissingTable(db: DB, param: string, data: Option<Fields>)
    requires FindTable(db.tables, Str(param)).None?
    ensures SeatSpec(db, param, data) == (Failure(HttpError("table_id " + param + " does not exist", 404)), db)
  {
    FirstFailureIs(SeatChain, RunOn(SeatRequest(db, param, data)), 0);
  }

  lemma SeatMissingData(db: DB, param: string)
    requires FindTable(db.tables, Str(param)).Some?
    ensures SeatSpec(db, param, None) == (Failure(HttpError("Table information required", 400)), db)
  {
    FirstFailureIs(SeatChain, RunOn(SeatRequest(db, param, None)), 1);
  }

  lemma SeatMissingReservationId(db: DB, param: string, f: Fields)
    requires FindTable(db.tables, Str(param)).Some?
    requires !Truthy(Get(f, "reservation_id"))
    ensures SeatSpec(db, param, Some(f)) == (Failure(HttpError("reservation_id required", 400)), db)
  {
    FirstFailureIs(SeatChain, RunOn(SeatRequest(db, param, Some(f))), 2);
  }

  lemma SeatUnknownReservation(db: DB, param: string, f: Fields)
    requires FindTable(db.tables, Str(param)).Some?
    requires Truthy(Get(f, "reservation_id"))
    requires FindReservation(db.reservations, Get(f, "reservation_id")).None?
    ensures SeatSpec(db, param, Some(f))
         == (Failure(HttpError("reservation_id " + JsString(Get(f, "reservation_id")) + " does not exist", 404)), db)
  {
    FirstFailureIs(SeatChain, RunOn(SeatRequest(db, param, Some(f))), 3);
  }

  lemma SeatAlreadySeated(db: DB, param: string, f: Fields)
    requires FindTable(db.tables, Str(param)).Some?
    requires FindReservation(db.reservations, Get(f, "reservation_id")).Some?
    requires FindReservation(db.reservations, Get(f, "reservation_id")).value.status == Str("seated")
    ensures SeatSpec(db, param, Some(f)) == (Failure(HttpError("reservation is already seated", 400)), db)
  {
    FirstFailureIs(SeatChain, RunOn(SeatRequest(db, param, Some(f))), 4);
  }

  lemma SeatOverCapacity(db: DB, param: string, f: Fields)
    requires FindTable(db.tables, Str(param)).Some?
    requires FindReservation(db.reservations, Get(f, "reservation_id")).Some?
    requires FindReservation(db.reservations, Get(f, "reservation_id")).value.status != Str("seated")
    requires FindReservation(db.reservations, Get(f, "reservation_id")).value.people
             > FindTable(db.tables, Str(param)).value.capacity
    ensures SeatSpec(db, param, Some(f)) == (Failure(HttpError("Table capacity not sufficient", 400)), db)
  {
    FirstFailureIs(SeatChain, RunOn(SeatRequest(db, param, Some(f))), 5);
  }

  lemma SeatOccupied(db: DB, param: string, f: Fields)
    requires FindTable(db.tables, Str(param)).Some?
    requires FindReservation(db.reservations, Get(f, "reservation_id")).Some?
    requires FindReservation(db.reservations, Get(f, "reservation_id")).value.status != Str("seated")
    requires FindReservation(db.reservations, Get(f, "reservation_id")).value.people
             <= FindTable(db.tables, Str(param)).value.capacity
    requires FindTable(db.tables, Str(param)).value.reservation_id.Some?
    ensures SeatSpec(db, param, Some(f)) == (Failure(HttpError("table_id is occupied", 400)), db)
  {
    FirstFailureIs(SeatChain, RunOn(SeatRequest(db, param, Some(f))), 6);
  }

  /* ---------------------------------------------------------------- free */

  function FreeRequest(db: DB, param: string): TableRequest
  {
    TableRequest(param, None, FindTable(db.tables, Str(param)), None)
  }

  /**
   * `DELETE /tables/:table_id/seat`: the table's reference is cleared, then
   * the reservation it referenced is set to "finished"; the reply is the
   * `openTable` join of the freed table. When the reference selects no row,
   * the table write has happened and the second query throws.
   */
  function FreeSpec(db: DB, param: string): (Response<seq<JoinedRow>>, DB)
  {
    var req := FreeRequest(db, param);
    var v := Verdict(FreeChain, req);
    if !v.Pass? then (Reject(v), db)
    else
      assert RunOn(req)(FreeChain[0]).Pass? && RunOn(req)(FreeChain[1]).Pass?;
      var t := req.table.value;
      var tables' := WriteTable(db.tables, t.(reservation_id := None));
      match FindReservation(db.reservations, Num(t.reservation_id.value))
      case None => (ServerError, DB(tables', db.reservations))
      case Some(r) =>
        var finished := r.(status := Str("finished"));
        var db' := DB(tables', WriteReservation(db.reservations, Some(finished.reservation_id), finished));
        (Success(200, OpenTable(db', t.table_id)), db')
  }

  method Free(store: Store, param: string) returns (resp: Response<seq<JoinedRow>>)
    requires store.Valid()
    modifies store
    ensures store.Valid()
    ensures (resp, store.Snapshot()) == FreeSpec(old(store.Snapshot()), param)
  {
    var table := store.Read(Str(param));
    var req := TableRequest(param, None, table, None);
    assert req == FreeRequest(store.Snapshot(), param);
    var v := Verdict(FreeChain, req);
    if !v.Pass? {
      return Reject(v);
    }
    assert RunOn(req)(FreeChain[0]).Pass? && RunOn(req)(FreeChain[1]).Pass?;
    var t := table.value;
    var reservation := store.ReadReservation(Num(t.reservation_id.value));
    var record: Option<Reservation> := None;
    if reservation.Some? {
      record := Some(reservation.value.(status := Str("finished")));
    }
    var rows := store.Destroy(t.(reservation_id := None), record);
    if rows.None? {
      return ServerError;
    }
    resp := Success(200, rows.value);
  }

  lemma FreeMissingTable(db: DB, param: string)
    requires FindTable(db.tables, Str(param)).None?
    ensures FreeSpec(db, param) == (Failure(HttpError("table_id " + param + " does not exist", 404)), db)
  {
    FirstFailureIs(FreeChain, RunOn(FreeRequest(db, param)), 0);
  }

  lemma FreeNotOccupied(db: DB, param: string)
    requires FindTable(db.tables, Str(param)).Some? && FindTable(db.tables, Str(param)).value.reservation_id.None?
    ensures FreeSpec(db, param) == (Failure(HttpError("table_id is not occupied", 400)), db)
  {
    FirstFailureIs(FreeChain, RunOn(FreeRequest(db, param)), 1);
  }

  /**
   * Freeing an occupied table clears its reference and finishes the
   * reservation; the join the reply carries is then empty.
   */
  lemma FreeEffect(db: DB, param: string)
    requires WellKeyed(db)
    requires FindTable(db.tables, Str(param)).Some?
    requires var t := FindTable(db.tables, Str(param)).value;
      t.reservation_id.Some? && t.reservation_id.value in db.reservations
    ensures var (resp, db') := FreeSpec(db, param);
      var t := FindTable(db.tables, Str(param)).value;
      var k := t.reservation_id.value;
      && resp == Success(200, [])
      && db'.tables == db.tables[t.table_id := t.(reservation_id := None)]
      && db'.reservations == db.reservations[k := db.reservations[k].(status := Str("finished"))]
      && WellKeyed(db')
  {
    FindByKey(db, Str(param));
    var t := FindTable(db.tables, Str(param)).value;
    var req := FreeRequest(db, param);
    assert forall i :: 0 <= i < |FreeChain| ==> RunOn(req)(FreeChain[i]).Pass?;
    assert FindReservation(db.reservations, Num(t.reservation_id.value)) == Some(db.reservations[t.reservation_id.value]);
  }

  /**
   * A table referencing no existing reservation: the table is written free,
   * then the reservation write throws, and the reservations stay as they were.
   */
  lemma FreeDanglingReference(db: DB, param: string)
    requires WellKeyed(db)
    requires FindTable(db.tables, Str(param)).Some?
    requires var t := FindTable(db.tables, Str(param)).value;
      t.reservation_id.Some? && t.reservation_id.value !in db.reservations
    ensures var (resp, db') := FreeSpec(db, param);
      var t := FindTable(db.tables, Str(param)).value;
      && resp == ServerError
      && db'.tables == db.tables[t.table_id := t.(reservation_id := None)]
      && db'.reservations == db.reservations
  {
    FindByKey(db, Str(param));
    var req := FreeRequest(db, param);
    assert forall i :: 0 <= i < |FreeChain| ==> RunOn(req)(FreeChain[i]).Pass?;
  }

  /* ------------------------------------------------------- seating invariant */

  /**
   * The seating relation is consistent: every table reference selects a
   * seated reservation, no two tables reference the same one, and every
   * seated reservation sits at some table.
   */
  ghost predicate Consistent(db: DB)
  {
    && WellKeyed(db)
    && (forall id :: id in db.tables && db.tables[id].reservation_id.Some? ==>
          && db.tables[id].reservation_id.value in db.reservations
          && db.reservations[db.tables[id].reservation_id.value].status == Str("seated"))
    && (forall a, b :: a in db.tables && b in db.tables && a != b && db.tables[a].reservation_id.Some? ==>
          db.tables[a].reservation_id != db.tables[b].reservation_id)
    && (forall k :: k in db.reservations && db.reservations[k].status == Str("seated") ==>
          exists id :: id in db.tables && db.tables[id].reservation_id == Some(k))
  }

  /** Seating keeps the relation consistent. */
  lemma SeatKeepsConsistent(db: DB, param: string, data: Option<Fields>)
    requires Consistent(db)
    ensures Consistent(SeatSpec(db, param, data).1)
  {
    if SeatAllowed(db, param, data) {
      SeatEffect(db, param, data);
      var db' := SeatSpec(db, param, data).1;
      var t := FindTable(db.tables, Str(param)).value;
      var k := SeatKey(db, param, data);
      assert db.reservations[k].status != Str("seated") by {
        FindByKey(db, Get(data.value, "reservation_id"));
      }
      // no table referenced k, since k was not seated
      assert forall id :: id in db.tables ==> db.tables[id].reservation_id != Some(k);
      forall j | j in db'.reservations && db'.reservations[j].status == Str("seated")
        ensures exists id :: id in db'.tables && db'.tables[id].reservation_id == Some(j)
      {
        if j == k {
          assert db'.tables[t.table_id].reservation_id == Some(k);
        } else {
          var id :| id in db.tables && db.tables[id].reservation_id == Some(j);
          assert db'.tables[id].reservation_id == Some(j);
        }
      }
    } else {
      SeatSucceedsExactly(db, param, data);
    }
  }

  /** Freeing keeps the relation consistent, and on it never leaves a partial write. */
  lemma FreeKeepsConsistent(db: DB, param: string)
    requires Consistent(db)
    ensures Consistent(FreeSpec(db, param).1)
    ensures FreeSpec(db, param).0 != ServerError
  {
    var t := FindTable(db.tables, Str(param));
    if t.None? {
      FreeMissingTable(db, param);
    } else if t.value.reservation_id.None? {
      FreeNotOccupied(db, param);
    } else {
      FindByKey(db, Str(param));
      FreeEffect(db, param);
      var db' := FreeSpec(db, param).1;
      var tid := t.value.table_id;
      var k := t.value.reservation_id.value;
      forall j | j in db'.reservations && db'.reservations[j].status == Str("seated")
        ensures exists id :: id in db'.tables && db'.tables[id].reservation_id == Some(j)
      {
        assert j != k;
        var id :| id in db.tables && db.tables[id].reservation_id == Some(j);
        assert id != tid;
        assert db'.tables[id].reservation_id == Some(j);
      }
    }
  }

  /**
   * Seating a reservation and then freeing the same table gives back the
   * original tables, with the reservation "finished".
   */
  lemma SeatThenFree(db: DB, param: string, data: Option<Fields>)
    requires WellKeyed(db)
    requires SeatAllowed(db, param, data)
    ensures var k := SeatKey(db, param, data);
      k in db.reservations &&
      FreeSpec(SeatSpec(db, param, data).1, param)
        == (Success(200, []), DB(db.tables, db.reservations[k := db.reservations[k].(status := Str("finished"))]))
  {
    SeatEffect(db, param, data);
    var db' := SeatSpec(db, param, data).1;
    var t := FindTable(db.tables, Str(param)).value;
    var k := SeatKey(db, param, data);
    FindByKey(db, Str(param));
    assert FindTable(db'.tables, Str(param)) == Some(t.(reservation_id := Some(k)));
    FreeEffect(db', param);
    assert db'.tables[t.table_id := t.(reservation_id := Some(k)).(reservation_id := None)] == db.tables;
    assert db'.reservations[k := db'.reservations[k].(status := Str("finished"))]
        == db.reservations[k := db.reservations[k].(status := Str("finished"))];
  }

  /**
   * The status route writes any known status without looking at the tables:
   * setting a booked reservation to "seated" leaves a seated reservation no
   * table references.
   */
  lemma StatusUpdateCanBreakConsistency(r: Reservation, f: Fields)
    requires r.reservation_id == 1 && r.status == Str("booked")
    requires Get(f, "status") == Str("seated")
    ensures Consistent(DB(map[], map[1 := r]))
    ensures !Consistent(DB(map[], ReservationsController.StatusUpdateSpec(map[1 := r], "1", Some(f)).1))
  {
    var rs := map[1 := r];
    KeyOfPathRoundTrip(1);
    assert NatToString(1) == "1";
    ReservationsController.StatusUpdateApplies(rs, "1", Some(f));
    var rs' := ReservationsController.StatusUpdateSpec(rs, "1", Some(f)).1;
    assert rs'[1].status == Str("seated");
  }
}
