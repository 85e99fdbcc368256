/**
 * The rows of the `reservations` and `tables` relations, the two-relation
 * database they form, and the replies a handler sends.
 */
module Records {
  import opened Wrappers
  import opened Values
  import opened Pipeline

  /**
   * A reservation row. The text columns hold what the validated request sent;
   * `people` is the integer column; `status` is whatever the last write put
   * there (a create always writes "booked").
   */
  datatype Reservation = Reservation(
    reservation_id: Id,
    first_name: Value,
    last_name: Value,
    mobile_number: Value,
    reservation_date: Value,
    reservation_time: Value,
    people: int,
    status: Value)

  /** A table row; `reservation_id` is None (null) for a free table. */
  datatype Table = Table(table_id: Id, table_name: string, capacity: int, reservation_id: Option<Id>)

  /** A row of the `tables`-join-`reservations` query that freeing a table returns. */
  datatype JoinedRow = JoinedRow(table: Table, reservation: Reservation)

  datatype DB = DB(tables: map<Id, Table>, reservations: map<Id, Reservation>)

  /** Every row is stored under its own primary key. */
  ghost predicate WellKeyed(db: DB)
  {
    && (forall k :: k in db.tables ==> db.tables[k].table_id == k)
    && (forall k :: k in db.reservations ==> db.reservations[k].reservation_id == k)
  }

  /** The HTTP reply of a handler: a status code with data, an error, or a 500. */
  datatype Response<T> = Success(code: int, data: T) | Failure(error: HttpError) | ServerError

  /** The reply the error boundary sends for a check that did not pass. */
  function Reject<T>(o: Outcome): (r: Response<T>)
    requires !o.Pass?
    ensures r.Failure? <==> o.Fail?
    ensures o.Fail? ==> r.error == o.error
    ensures o.Crash? ==> r == ServerError
  {
    if o.Fail? then Failure(o.error) else ServerError
  }

  /** `where({ table_id: v }).first()` on the tables relation. */
  function FindTable(tables: map<Id, Table>, v: Value): Option<Table>
  {
    match KeyOf(v)
    case Some(k) => if k in tables then Some(tables[k]) else None
    case None => None
  }

  /** `where({ reservation_id: v }).first()` on the reservations relation. */
  function FindReservation(reservations: map<Id, Reservation>, v: Value): Option<Reservation>
  {
    match KeyOf(v)
    case Some(k) => if k in reservations then Some(reservations[k]) else None
    case None => None
  }

  /** A lookup finds the row whose primary key the value denotes, and nothing else. */
  lemma FindByKey(db: DB, v: Value)
    requires WellKeyed(db)
    ensures FindTable(db.tables, v).Some? <==> KeyOf(v).Some? && KeyOf(v).value in db.tables
    ensures FindTable(db.tables, v).Some? ==> FindTable(db.tables, v).value.table_id == KeyOf(v).value
    ensures FindReservation(db.reservations, v).Some? <==> KeyOf(v).Some? && KeyOf(v).value in db.reservations
    ensures FindReservation(db.reservations, v).Some? ==>
      FindReservation(db.reservations, v).value.reservation_id == KeyOf(v).value
  {
  }

  /** `update(t).where({ table_id })`: the row with that key is replaced, if there is one. */
  function WriteTable(tables: map<Id, Table>, t: Table): (r: map<Id, Table>)
    ensures r.Keys == tables.Keys
    ensures t.table_id in tables ==> r[t.table_id] == t
    ensures forall k :: k in tables && k != t.table_id ==> r[k] == tables[k]
  {
    if t.table_id in tables then tables[t.table_id := t] else tables
  }

  /**
   * `update(row).where({ reservation_id: key })`: the row with that key is
   * replaced; a null key or a missing row changes nothing.
   */
  function WriteReservation(reservations: map<Id, Reservation>, key: Option<Id>, row: Reservation): (r: map<Id, Reservation>)
    ensures r.Keys == reservations.Keys
    ensures key.Some? && key.value in reservations ==> r[key.value] == row
    ensures forall k :: k in reservations && Some(k) != key ==> r[k] == reservations[k]
  {
    if key.Some? && key.value in reservations then reservations[key.value := row] else reservations
  }

  /** A row just written is what a lookup by its id returns. */
  lemma WrittenReservationFound(rs: map<Id, Reservation>, row: Reservation)
    requires row.reservation_id in rs
    ensures FindReservation(WriteReservation(rs, Some(row.reservation_id), row), Num(row.reservation_id)) == Some(row)
  {
  }

  /** The `openTable` join for one table: its row paired with the reservation it references. */
  function OpenTable(db: DB, table_id: Id): (rows: seq<JoinedRow>)
    ensures |rows| <= 1
    ensures |rows| == 1 <==> table_id in db.tables && db.tables[table_id].reservation_id.Some?
                             && db.tables[table_id].reservation_id.value in db.reservations
  {
    if table_id in db.tables && db.tables[table_id].reservation_id.Some?
       && db.tables[table_id].reservation_id.value in db.reservations
    then [JoinedRow(db.tables[table_id], db.reservations[db.tables[table_id].reservation_id.value])]
    else []
  }
}
