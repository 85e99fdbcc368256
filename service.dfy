/**
 * The data-access layer: the tables service and the reservations service it
 * sits beside, over an in-memory copy of the two relations. Ids are assigned
 * from per-relation serial counters, as the database's serial keys are.
 */
module Service {
  import opened Wrappers
  import opened Values
  import opened Records

  /** Code-point order on table names, the order `orderBy("table_name")` sorts by here. */
  predicate NameLe(a: string, b: string)
  {
    if a == [] then true
    else if b == [] then false
    else if a[0] != b[0] then a[0] < b[0]
    else NameLe(a[1..], b[1..])
  }

  lemma {:induction false} NameLeTotal(a: string, b: string)
    ensures NameLe(a, b) || NameLe(b, a)
  {
    if a != [] && b != [] && a[0] == b[0] {
      NameLeTotal(a[1..], b[1..]);
    }
  }

  lemma {:induction false} NameLeTransitive(a: string, b: string, c: string)
    requires NameLe(a, b) && NameLe(b, c)
    ensures NameLe(a, c)
  {
    if a != [] && b != [] && c != [] && a[0] == b[0] && b[0] == c[0] {
      NameLeTransitive(a[1..], b[1..], c[1..]);
    }
  }

  predicate SortedByName(ts: seq<Table>)
  {
    forall i, j :: 0 <= i < j < |ts| ==> NameLe(ts[i].table_name, ts[j].table_name)
  }

  /** `t` placed before the first table whose name sorts after it. */
  function InsertByName(ts: seq<Table>, t: Table): (r: seq<Table>)
    ensures multiset(r) == multiset(ts) + multiset{t}
  {
    if ts == [] then [t]
    else if NameLe(t.table_name, ts[0].table_name) then [t] + ts
    else
      assert ts == [ts[0]] + ts[1..];
      [ts[0]] + InsertByName(ts[1..], t)
  }

  /** A table placed before a sorted list whose every name it precedes gives a sorted list. */
  lemma ConsSorted(x: Table, tail: seq<Table>)
    requires SortedByName(tail)
    requires forall j :: 0 <= j < |tail| ==> NameLe(x.table_name, tail[j].table_name)
    ensures SortedByName([x] + tail)
  {
    var r := [x] + tail;
    forall i, j | 0 <= i < j < |r|
      ensures NameLe(r[i].table_name, r[j].table_name)
    {
      if i > 0 {
        assert r[i] == tail[i - 1] && r[j] == tail[j - 1];
      } else {
        assert r[j] == tail[j - 1];
      }
    }
  }

  /** A table of an insertion's result is the inserted table or one of the original list. */
  lemma InsertedFrom(ts: seq<Table>, t: Table, u: Table)
    requires u in InsertByName(ts, t)
    ensures u == t || u in ts
  {
    assert u in multiset(InsertByName(ts, t));
  }

  /** Inserting into a sorted list keeps it sorted. */
  lemma {:induction false} InsertByNameSorted(ts: seq<Table>, t: Table)
    requires SortedByName(ts)
    ensures SortedByName(InsertByName(ts, t))
  {
    if ts == [] {
    } else if NameLe(t.table_name, ts[0].table_name) {
      forall j | 0 <= j < |ts|
        ensures NameLe(t.table_name, ts[j].table_name)
      {
        if j > 0 {
          NameLeTransitive(t.table_name, ts[0].table_name, ts[j].table_name);
        }
      }
      ConsSorted(t, ts);
    } else {
      var tail := InsertByName(ts[1..], t);
      InsertByNameSorted(ts[1..], t);
      NameLeTotal(t.table_name, ts[0].table_name);
      forall j | 0 <= j < |tail|
        ensures NameLe(ts[0].table_name, tail[j].table_name)
      {
        assert tail[j] in tail;
        InsertedFrom(ts[1..], t, tail[j]);
        if tail[j] != t {
          var k :| 0 <= k < |ts[1..]| && ts[1..][k] == tail[j];
          assert ts[k + 1] == tail[j];
        }
      }
      ConsSorted(ts[0], tail);
    }
  }

  class Store {
    var tables: map<Id, Table>
    var reservations: map<Id, Reservation>
    var nextTableId: Id
    var nextReservationId: Id

    ghost predicate Valid()
      reads this
    {
      && WellKeyed(DB(tables, reservations))
      && (forall k :: k in tables ==> k < nextTableId)
      && (forall k :: k in reservations ==> k < nextReservationId)
    }

    /** The two relations as one value. */
    function Snapshot(): DB
      reads this
    {
      DB(tables, reservations)
    }

    constructor ()
      ensures Valid()
      ensures tables == map[] && reservations == map[]
    {
      tables := map[];
      reservations := map[];
      nextTableId := 1;
      nextReservationId := 1;
    }

    /** `list()`: every table once, ordered by `table_name`. */
    method List() returns (ts: seq<Table>)
      requires Valid()
      ensures SortedByName(ts)
      ensures |ts| == |tables|
      ensures forall k :: k in tables ==> tables[k] in ts
      ensures forall i :: 0 <= i < |ts| ==> ts[i].table_id in tables && tables[ts[i].table_id] == ts[i]
    {
      var rest := tables.Keys;
      ts := [];
      while rest != {}
        invariant rest <= tables.Keys
        invariant SortedByName(ts)
        invariant |ts| + |rest| == |tables|
        invariant forall k :: k in tables && k !in rest ==> tables[k] in ts
        invariant forall i :: 0 <= i < |ts| ==>
          ts[i].table_id in tables && ts[i].table_id !in rest && tables[ts[i].table_id] == ts[i]
        decreases rest
      {
        var k :| k in rest;
        InsertByNameSorted(ts, tables[k]);
        var ts' := InsertByName(ts, tables[k]);
        forall i | 0 <= i < |ts'|
          ensures ts'[i].table_id in tables && ts'[i].table_id !in rest - {k}
          ensures tables[ts'[i].table_id] == ts'[i]
        {
          assert ts'[i] in multiset(ts) + multiset{tables[k]};
          if ts'[i] != tables[k] {
            assert ts'[i] in ts;
            var m :| 0 <= m < |ts| && ts[m] == ts'[i];
          }
        }
        forall j | j in tables && j !in rest - {k}
          ensures tables[j] in ts'
        {
          if j != k {
            assert tables[j] in multiset(ts);
          }
          assert tables[j] in multiset(ts');
        }
        assert |ts'| == |ts| + 1 by { assert |multiset(ts')| == |multiset(ts)| + 1; }
        ts := ts';
        rest := rest - {k};
      }
    }

    /** `read(table_id)`: the table that id selects, or nothing. */
    method Read(table_id: Value) returns (t: Option<Table>)
      requires Valid()
      ensures t.Some? <==> KeyOf(table_id).Some? && KeyOf(table_id).value in tables
      ensures t.Some? ==> t.value == tables[KeyOf(table_id).value] && t.value.table_id == KeyOf(table_id).value
    {
      t := FindTable(tables, table_id);
    }

    /** `readReservation(reservation_id)`, also the reservations service's `read`. */
    method ReadReservation(reservation_id: Value) returns (r: Option<Reservation>)
      requires Valid()
      ensures r.Some? <==> KeyOf(reservation_id).Some? && KeyOf(reservation_id).value in reservations
      ensures r.Some? ==>
        r.value == reservations[KeyOf(reservation_id).value] && r.value.reservation_id == KeyOf(reservation_id).value
    {
      r := FindReservation(reservations, reservation_id);
    }

    /** `create(table)`: inserts the row under the next serial id and returns the stored row. */
    method Create(table_name: string, capacity: int, reservation_id: Option<Id>) returns (t: Table)
      requires Valid()
      modifies this
      ensures Valid()
      ensures t == Table(old(nextTableId), table_name, capacity, reservation_id)
      ensures old(nextTableId) !in old(tables)
      ensures tables == old(tables)[t.table_id := t] && reservations == old(reservations)
    {
      t := Table(nextTableId, table_name, capacity, reservation_id);
      tables := tables[t.table_id := t];
      nextTableId := nextTableId + 1;
    }

    /** The reservations service's `create`: the row under the next serial id. */
    method CreateReservation(draft: Reservation) returns (r: Reservation)
      requires Valid()
      modifies this
      ensures Valid()
      ensures r == draft.(reservation_id := old(nextReservationId))
      ensures old(nextReservationId) !in old(reservations)
      ensures reservations == old(reservations)[r.reservation_id := r] && tables == old(tables)
    {
      r := draft.(reservation_id := nextReservationId);
      reservations := reservations[r.reservation_id := r];
      nextReservationId := nextReservationId + 1;
    }

    /** The reservations service's `update`: rewrites the row with the record's id, returns it. */
    method UpdateReservation(row: Reservation) returns (r: Option<Reservation>)
      requires Valid()
      modifies this
      ensures Valid()
      ensures reservations == WriteReservation(old(reservations), Some(row.reservation_id), row)
      ensures tables == old(tables)
      ensures r == FindReservation(reservations, Num(row.reservation_id))
    {
      reservations := WriteReservation(reservations, Some(row.reservation_id), row);
      r := FindReservation(reservations, Num(row.reservation_id));
    }

    /**
     * `update(updatedTable, updatedReservation)`: first the table row, then
     * the reservation row selected by the new table's `reservation_id`; then
     * the table is read back.
     */
    method Update(updatedTable: Table, updatedReservation: Reservation) returns (t: Option<Table>)
      requires Valid()
      requires updatedTable.reservation_id.Some? ==>
        updatedReservation.reservation_id == updatedTable.reservation_id.value
      modifies this
      ensures Valid()
      ensures tables == WriteTable(old(tables), updatedTable)
      ensures reservations == WriteReservation(old(reservations), updatedTable.reservation_id, updatedReservation)
      ensures t == FindTable(tables, Num(updatedTable.table_id))
    {
      tables := WriteTable(tables, updatedTable);
      reservations := WriteReservation(reservations, updatedTable.reservation_id, updatedReservation);
      t := FindTable(tables, Num(updatedTable.table_id));
    }

    /**
     * `destroy(freeTable, reservation)`: first the table row, then the
     * reservation row with the record's own id; returns the `openTable` join.
     * A record without an id (the spread of a missing reservation) makes the
     * second query throw after the first write: `rows` is None.
     */
    method Destroy(freeTable: Table, reservation: Option<Reservation>) returns (rows: Option<seq<JoinedRow>>)
      requires Valid()
      modifies this
      ensures Valid()
      ensures tables == WriteTable(old(tables), freeTable)
      ensures reservation.None? ==> reservations == old(reservations) && rows.None?
      ensures reservation.Some? ==>
        && reservations == WriteReservation(old(reservations), Some(reservation.value.reservation_id), reservation.value)
        && rows == Some(OpenTable(DB(tables, reservations), freeTable.table_id))
    {
      tables := WriteTable(tables, freeTable);
      if reservation.None? {
        rows := None;
        return;
      }
      reservations := WriteReservation(reservations, Some(reservation.value.reservation_id), reservation.value);
      rows := Some(OpenTable(DB(tables, reservations), freeTable.table_id));
    }
  }
}
