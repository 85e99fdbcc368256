/**
 * The table middlewares as functions of the request, and the chains the
 * table routes run them in.
 */
module TableChecks {
  import opened Wrappers
  import opened Values
  import opened Pipeline
  import opened Records

  /**
   * What the table middlewares see: the `:table_id` route parameter, the
   * body's `data`, and the rows `validTable` and `validReservation` load.
   */
  datatype TableRequest = TableRequest(tableParam: string, data: Option<Fields>, table: Option<Table>, reservation: Option<Reservation>)

  datatype Check =
    | ValidTable
    | ValidData
    | HasReservationId
    | ValidReservation
    | ResAlreadySeated
    | CapacityCheck
    | TableIsOccupied
    | TableNotOccupied
    | ValidTableName
    | ValidCapacity

  function CheckValidTable(req: TableRequest): Outcome
  {
    if req.table.Some? then Pass else NotFound("table_id " + req.tableParam + " does not exist")
  }

  function CheckValidData(data: Option<Fields>): Outcome
  {
    if data.Some? then Pass else BadRequest("Table information required")
  }

  function CheckHasReservationId(data: Option<Fields>): Outcome
  {
    match data
    case None => Crash
    case Some(f) => if Truthy(Get(f, "reservation_id")) then Pass else BadRequest("reservation_id required")
  }

  function CheckValidReservation(req: TableRequest): Outcome
  {
    match req.data
    case None => Crash
    case Some(f) =>
      if req.reservation.Some? then Pass
      else NotFound("reservation_id " + JsString(Get(f, "reservation_id")) + " does not exist")
  }

  /** Only a reservation whose status is exactly "seated" is refused. */
  function CheckResAlreadySeated(reservation: Option<Reservation>): Outcome
  {
    match reservation
    case None => Crash
    case Some(r) => if r.status == Str("seated") then BadRequest("reservation is already seated") else Pass
  }

  function CheckCapacity(table: Option<Table>, reservation: Option<Reservation>): Outcome
  {
    if table.None? || reservation.None? then Crash
    else if reservation.value.people <= table.value.capacity then Pass
    else BadRequest("Table capacity not sufficient")
  }

  function CheckTableIsOccupied(table: Option<Table>): Outcome
  {
    match table
    case None => Crash
    case Some(t) => if t.reservation_id.Some? then BadRequest("table_id is occupied") else Pass
  }

  function CheckTableNotOccupied(table: Option<Table>): Outcome
  {
    match table
    case None => Crash
    case Some(t) => if t.reservation_id.Some? then Pass else BadRequest("table_id is not occupied")
  }

  /** `tableName && tableName !== "" && tableName.length > 1`: a string of two characters or more. */
  function CheckValidTableName(data: Option<Fields>): Outcome
  {
    match data
    case None => Crash
    case Some(f) =>
      var name := Get(f, "table_name");
      if name.Str? && |name.s| > 1 then Pass else BadRequest("table_name is required")
  }

  function CheckValidCapacity(data: Option<Fields>): Outcome
  {
    match data
    case None => Crash
    case Some(f) =>
      var capacity := Get(f, "capacity");
      if Truthy(capacity) && capacity.Num? && capacity.n > 0 then Pass else BadRequest("capacity is required")
  }

  function RunCheck(c: Check, req: TableRequest): Outcome
  {
    match c
    case ValidTable => CheckValidTable(req)
    case ValidData => CheckValidData(req.data)
    case HasReservationId => CheckHasReservationId(req.data)
    case ValidReservation => CheckValidReservation(req)
    case ResAlreadySeated => CheckResAlreadySeated(req.reservation)
    case CapacityCheck => CheckCapacity(req.table, req.reservation)
    case TableIsOccupied => CheckTableIsOccupied(req.table)
    case TableNotOccupied => CheckTableNotOccupied(req.table)
    case ValidTableName => CheckValidTableName(req.data)
    case ValidCapacity => CheckValidCapacity(req.data)
  }

  /** `POST /tables`. */
  const CreateChain: seq<Check> := [ValidData, ValidTableName, ValidCapacity]

  /** `PUT /tables/:table_id/seat`. */
  const SeatChain: seq<Check> := [
    ValidTable, ValidData, HasReservationId, ValidReservation, ResAlreadySeated, CapacityCheck, TableIsOccupied]

  /** `DELETE /tables/:table_id/seat`. */
  const FreeChain: seq<Check> := [ValidTable, TableNotOccupied]

  /** `GET /tables/:table_id`. */
  const ReadChain: seq<Check> := [ValidTable]

  function RunOn(req: TableRequest): Check -> Outcome
  {
    c => RunCheck(c, req)
  }

  function Verdict(chain: seq<Check>, req: TableRequest): Outcome
  {
    FirstFailure(chain, RunOn(req))
  }

  /**
   * Table creation reports, in this order, a missing body, a name shorter
   * than two characters and a capacity that is not a positive number, each
   * with 400; otherwise it passes.
   */
  lemma CreateTableChecks(req: TableRequest)
    ensures req.data.None? ==> Verdict(CreateChain, req) == BadRequest("Table information required")
    ensures req.data.Some? && !(Get(req.data.value, "table_name").Str? && |Get(req.data.value, "table_name").s| > 1)
      ==> Verdict(CreateChain, req) == BadRequest("table_name is required")
    ensures req.data.Some? && Get(req.data.value, "table_name").Str? && |Get(req.data.value, "table_name").s| > 1
      && !(Get(req.data.value, "capacity").Num? && Get(req.data.value, "capacity").n > 0)
      ==> Verdict(CreateChain, req) == BadRequest("capacity is required")
    ensures Verdict(CreateChain, req).Pass? <==>
      && req.data.Some?
      && Get(req.data.value, "table_name").Str? && |Get(req.data.value, "table_name").s| > 1
      && Get(req.data.value, "capacity").Num? && Get(req.data.value, "capacity").n > 0
  {
    var run := RunOn(req);
    assert Verdict(CreateChain, req).Pass? <==>
      run(CreateChain[0]).Pass? && run(CreateChain[1]).Pass? && run(CreateChain[2]).Pass?;
    if req.data.None? {
      FirstFailureIs(CreateChain, run, 0);
    } else if !run(CreateChain[1]).Pass? {
      FirstFailureIs(CreateChain, run, 1);
    } else if !run(CreateChain[2]).Pass? {
      FirstFailureIs(CreateChain, run, 2);
    }
  }
}
