/** The assignment store: two tables (assignment headers and seat rows)
    with the queries and writes of the flight repository, a database that
    holds the committed tables, and transactions that work on a private
    copy which a commit publishes and a rollback discards. */
module Persistent {
  import opened Wrappers
  import opened Model

  /** A row of the assignment table: the columns of an assignment, without
      its seat rows. */
  datatype AssignmentRow = AssignmentRow(
    id: nat,
    crewName: string,
    crewId: string,
    flightNumber: string,
    flightDate: string,
    aircraftType: AircraftType)

  /** Both tables, plus the next id the assignment table hands out. */
  datatype Tables = Tables(assignments: seq<AssignmentRow>, seats: seq<FlightSeatAssignment>, nextId: nat)

  const UniqueFlightDateViolation :=
    "UNIQUE constraint failed: flight_assignments.flight_number, flight_assignments.flight_date"
  const UniqueSeatViolation :=
    "UNIQUE constraint failed: flight_seat_assignments.flight_assignment_id, flight_seat_assignments.seat"
  const RecordNotFound := "record not found"
  const TxDone := "sql: transaction has already been committed or rolled back"
  const QueryFailed := "failed to query flight assignments in transaction: "

  predicate IsFor(a: AssignmentRow, flightNumber: string, date: string)
  {
    a.flightNumber == flightNumber && a.flightDate == date
  }

  // ---------------------------------------------------------------------
  // Table invariants
  // ---------------------------------------------------------------------

  /** Unique index on (flight_number, flight_date). */
  ghost predicate UniqueFlightDate(rows: seq<AssignmentRow>)
  {
    forall i, j :: 0 <= i < j < |rows| ==> !IsFor(rows[j], rows[i].flightNumber, rows[i].flightDate)
  }

  /** Ids grow along the table and stay below the next id to hand out. */
  ghost predicate IdsIncreasing(rows: seq<AssignmentRow>, nextId: nat)
  {
    && (forall i, j :: 0 <= i < j < |rows| ==> rows[i].id < rows[j].id)
    && (forall i :: 0 <= i < |rows| ==> rows[i].id < nextId)
  }

  predicate HasAssignment(rows: seq<AssignmentRow>, id: nat)
  {
    exists a :: a in rows && a.id == id
  }

  /** Every seat row belongs to an assignment of the table. */
  ghost predicate SeatsOwned(t: Tables)
  {
    forall s :: s in t.seats ==> HasAssignment(t.assignments, s.flightAssignmentId)
  }

  /** The store invariant. A seat row is exactly its (assignment id, seat)
      pair, so the unique index on that pair says no row occurs twice. */
  ghost predicate Valid(t: Tables): (ok: bool)
    ensures ok ==> forall i, j ::
      (0 <= i < |t.assignments| && 0 <= j < |t.assignments|
       && IsFor(t.assignments[j], t.assignments[i].flightNumber, t.assignments[i].flightDate)) ==> i == j
    ensures ok ==> forall s :: s in t.seats ==> s.flightAssignmentId < t.nextId
  {
    && UniqueFlightDate(t.assignments)
    && Distinct(t.seats)
    && IdsIncreasing(t.assignments, t.nextId)
    && SeatsOwned(t)
  }

  // ---------------------------------------------------------------------
  // Queries
  // ---------------------------------------------------------------------

  /** Number of assignment rows for (flightNumber, date). */
  function Count(rows: seq<AssignmentRow>, flightNumber: string, date: string): (n: nat)
    ensures n <= |rows|
    ensures n > 0 <==> exists a :: a in rows && IsFor(a, flightNumber, date)
  {
    if rows == [] then 0
    else (if IsFor(rows[0], flightNumber, date) then 1 else 0) + Count(rows[1..], flightNumber, date)
  }

  /** Under the unique index, at most one row matches. */
  lemma {:induction false} CountAtMostOne(rows: seq<AssignmentRow>, flightNumber: string, date: string)
    requires UniqueFlightDate(rows)
    ensures Count(rows, flightNumber, date) <= 1
  {
    if rows != [] {
      var rest := rows[1..];
      assert UniqueFlightDate(rest) by {
        forall i, j | 0 <= i < j < |rest|
          ensures !IsFor(rest[j], rest[i].flightNumber, rest[i].flightDate)
        {
          assert rest[i] == rows[i + 1] && rest[j] == rows[j + 1];
        }
      }
      CountAtMostOne(rest, flightNumber, date);
      if IsFor(rows[0], flightNumber, date) {
        forall a | a in rest ensures !IsFor(a, flightNumber, date) {
          var j :| 0 <= j < |rest| && rest[j] == a;
          assert rows[j + 1] == a;
        }
      }
    }
  }

  /** The seat rows of assignment `id`, in table order. */
  function SeatsOf(seats: seq<FlightSeatAssignment>, id: nat): (mine: seq<FlightSeatAssignment>)
    ensures |mine| <= |seats|
    ensures forall s :: s in mine <==> s in seats && s.flightAssignmentId == id
  {
    if seats == [] then []
    else (if seats[0].flightAssignmentId == id then [seats[0]] else []) + SeatsOf(seats[1..], id)
  }

  /** Selecting seat rows distributes over concatenation of tables. */
  lemma {:induction false} SeatsOfAppend(a: seq<FlightSeatAssignment>, b: seq<FlightSeatAssignment>, id: nat)
    ensures SeatsOf(a + b, id) == SeatsOf(a, id) + SeatsOf(b, id)
  {
    if a != [] {
      var head := if a[0].flightAssignmentId == id then [a[0]] else [];
      assert (a + b)[0] == a[0];
      assert (a + b)[1..] == a[1..] + b;
      assert SeatsOf(a + b, id) == head + SeatsOf(a[1..] + b, id);
      assert SeatsOf(a, id) == head + SeatsOf(a[1..], id);
      SeatsOfAppend(a[1..], b, id);
      assert head + (SeatsOf(a[1..], id) + SeatsOf(b, id)) == (head + SeatsOf(a[1..], id)) + SeatsOf(b, id);
    } else {
      assert a + b == b;
    }
  }

  /** No seat row of assignment `id`, nothing selected. */
  lemma {:induction false} SeatsOfNone(seats: seq<FlightSeatAssignment>, id: nat)
    requires forall s :: s in seats ==> s.flightAssignmentId != id
    ensures SeatsOf(seats, id) == []
  {
    if seats != [] {
      assert seats[0] in seats;
      SeatsOfNone(seats[1..], id);
    }
  }

  /** Rows all owned by `id` are selected whole, in order. */
  lemma {:induction false} SeatsOfAll(seats: seq<FlightSeatAssignment>, id: nat)
    requires forall s :: s in seats ==> s.flightAssignmentId == id
    ensures SeatsOf(seats, id) == seats
  {
    if seats != [] {
      assert seats[0] in seats;
      SeatsOfAll(seats[1..], id);
      assert seats == [seats[0]] + seats[1..];
    }
  }

  /** The seat codes assignment `id` holds. */
  ghost function Held(seats: seq<FlightSeatAssignment>, id: nat): set<string>
  {
    set s | s in seats && s.flightAssignmentId == id :: s.seat
  }

  /** A header populated with all its seat rows, as the preload does. */
  function Populate(a: AssignmentRow, seats: seq<FlightSeatAssignment>): (p: FlightAssignment)
    ensures RowOf(p, a.id) == a
    ensures forall s :: s in p.seatAssignments <==> s in seats && s.flightAssignmentId == a.id
  {
    FlightAssignment(a.id, a.crewName, a.crewId, a.flightNumber, a.flightDate, a.aircraftType, SeatsOf(seats, a.id))
  }

  /** Seat-row condition of the join: an empty seat list filters nothing. */
  predicate SeatFilter(s: FlightSeatAssignment, f: FlightFilter)
  {
    |f.seats| == 0 || s.seat in f.seats
  }

  /** The header matches the filter's flight and date and the inner join
      finds at least one of its seat rows passing the seat filter. */
  predicate Selected(a: AssignmentRow, seats: seq<FlightSeatAssignment>, f: FlightFilter)
  {
    IsFor(a, f.flightNumber, f.date)
    && exists s :: s in seats && s.flightAssignmentId == a.id && SeatFilter(s, f)
  }

  /** A header is selected exactly when its populated seat rows include one
      passing the seat filter; so a selected header never comes back with
      an empty seat list. */
  lemma SelectedMeansJoin(a: AssignmentRow, seats: seq<FlightSeatAssignment>, f: FlightFilter)
    ensures Selected(a, seats, f) <==>
              (IsFor(a, f.flightNumber, f.date)
               && exists s :: s in Populate(a, seats).seatAssignments && SeatFilter(s, f))
    ensures Selected(a, seats, f) ==> |Populate(a, seats).seatAssignments| > 0
  {
  }

  /** The join, grouped by header: each selected header once, in table order. */
  function Query(rows: seq<AssignmentRow>, seats: seq<FlightSeatAssignment>, f: FlightFilter)
    : (found: seq<FlightAssignment>)
    ensures |found| <= |rows|
    ensures forall a :: a in rows && Selected(a, seats, f) ==> Populate(a, seats) in found
    ensures forall x :: x in found ==> exists a :: a in rows && Selected(a, seats, f) && x == Populate(a, seats)
  {
    if rows == [] then []
    else
      (if Selected(rows[0], seats, f) then [Populate(rows[0], seats)] else [])
      + Query(rows[1..], seats, f)
  }

  function GetByFilter(t: Tables, f: FlightFilter): seq<FlightAssignment>
  {
    Query(t.assignments, t.seats, f)
  }

  /** What a caller of the assignment query may rely on: every selected
      header comes back populated, nothing else does, none twice when ids
      increase, and at most one under the unique index. */
  ghost predicate Answers(t: Tables, f: FlightFilter, found: seq<FlightAssignment>)
  {
    && |found| <= |t.assignments|
    && (forall a :: a in t.assignments && Selected(a, t.seats, f) ==> Populate(a, t.seats) in found)
    && (forall x :: x in found ==>
          exists a :: a in t.assignments && Selected(a, t.seats, f) && x == Populate(a, t.seats))
    && (IdsIncreasing(t.assignments, t.nextId) ==> Distinct(found))
    && (UniqueFlightDate(t.assignments) ==> |found| <= 1)
  }

  /** The query meets `Answers`. */
  lemma GetByFilterAnswers(t: Tables, f: FlightFilter)
    ensures Answers(t, f, GetByFilter(t, f))
  {
    if IdsIncreasing(t.assignments, t.nextId) {
      QueryDistinct(t.assignments, t.seats, f);
    }
    if UniqueFlightDate(t.assignments) {
      GetByFilterAtMostOne(t, f);
    }
  }

  /** Under the unique index, a query returns at most one assignment. */
  lemma GetByFilterAtMostOne(t: Tables, f: FlightFilter)
    requires UniqueFlightDate(t.assignments)
    ensures |GetByFilter(t, f)| <= 1
  {
    QueryAtMostOne(t.assignments, t.seats, f);
  }

  lemma {:induction false} QueryAtMostOne(rows: seq<AssignmentRow>, seats: seq<FlightSeatAssignment>, f: FlightFilter)
    requires UniqueFlightDate(rows)
    ensures |Query(rows, seats, f)| <= 1
  {
    if rows != [] {
      var rest := rows[1..];
      assert UniqueFlightDate(rest) by {
        forall i, j | 0 <= i < j < |rest|
          ensures !IsFor(rest[j], rest[i].flightNumber, rest[i].flightDate)
        {
          assert rest[i] == rows[i + 1] && rest[j] == rows[j + 1];
        }
      }
      QueryAtMostOne(rest, seats, f);
      if Selected(rows[0], seats, f) {
        forall a | a in rest ensures !Selected(a, seats, f) {
          var j :| 0 <= j < |rest| && rest[j] == a;
          assert rows[j + 1] == a;
        }
        QueryNoneSelected(rest, seats, f);
      }
    }
  }

  /** Grouping by header: with header ids increasing along the table, no
      assignment is returned twice. */
  lemma {:induction false} QueryDistinct(rows: seq<AssignmentRow>, seats: seq<FlightSeatAssignment>, f: FlightFilter)
    requires forall i, j :: 0 <= i < j < |rows| ==> rows[i].id < rows[j].id
    ensures Distinct(Query(rows, seats, f))
  {
    if rows != [] {
      var rest := rows[1..];
      forall i, j | 0 <= i < j < |rest| ensures rest[i].id < rest[j].id {
        assert rest[i] == rows[i + 1] && rest[j] == rows[j + 1];
      }
      QueryDistinct(rest, seats, f);
      var tail := Query(rest, seats, f);
      if Selected(rows[0], seats, f) {
        forall x | x in tail ensures x !in [Populate(rows[0], seats)] {
          var a :| a in rest && Selected(a, seats, f) && x == Populate(a, seats);
          var j :| 0 <= j < |rest| && rest[j] == a;
          assert rows[j + 1] == a;
        }
        DistinctConcat([Populate(rows[0], seats)], tail);
      }
    }
  }

  /** Nothing selected, nothing returned. */
  lemma {:induction false} QueryNoneSelected(rows: seq<AssignmentRow>, seats: seq<FlightSeatAssignment>, f: FlightFilter)
    requires forall a :: a in rows ==> !Selected(a, seats, f)
    ensures Query(rows, seats, f) == []
  {
    if rows != [] {
      assert rows[0] in rows;
      QueryNoneSelected(rows[1..], seats, f);
    }
  }

  /** The one selected header, when there is exactly one, is what the
      query returns. */
  lemma QueryIsTheSelected(t: Tables, f: FlightFilter, a: AssignmentRow)
    requires UniqueFlightDate(t.assignments)
    requires a in t.assignments && Selected(a, t.seats, f)
    ensures GetByFilter(t, f) == [Populate(a, t.seats)]
  {
    GetByFilterAtMostOne(t, f);
  }

  /** The first header for (flightNumber, date), as `First` returns it. */
  function FirstFor(rows: seq<AssignmentRow>, flightNumber: string, date: string): (r: Option<AssignmentRow>)
    ensures r.None? <==> Count(rows, flightNumber, date) == 0
    ensures r.Some? ==> r.value in rows && IsFor(r.value, flightNumber, date)
  {
    if rows == [] then None
    else if IsFor(rows[0], flightNumber, date) then Some(rows[0])
    else FirstFor(rows[1..], flightNumber, date)
  }

  /** With ids increasing along the table, the first match is the one with
      the lowest id, which is what `First` orders by. */
  lemma {:induction false} FirstForLowestId(rows: seq<AssignmentRow>, flightNumber: string, date: string)
    requires forall i, j :: 0 <= i < j < |rows| ==> rows[i].id < rows[j].id
    ensures FirstFor(rows, flightNumber, date).Some? ==>
      forall b :: b in rows && IsFor(b, flightNumber, date) ==> FirstFor(rows, flightNumber, date).value.id <= b.id
  {
    if rows != [] {
      if IsFor(rows[0], flightNumber, date) {
        forall b | b in rows ensures rows[0].id <= b.id {
          var j :| 0 <= j < |rows| && rows[j] == b;
        }
      } else {
        var rest := rows[1..];
        forall i, j | 0 <= i < j < |rest| ensures rest[i].id < rest[j].id {
          assert rest[i] == rows[i + 1] && rest[j] == rows[j + 1];
        }
        FirstForLowestId(rest, flightNumber, date);
        assert forall b :: b in rows && IsFor(b, flightNumber, date) ==> b in rest;
      }
    }
  }

  /** Under the unique index, the header matching (flightNumber, date) is
      the only one. */
  lemma {:induction false} OnlyMatch(rows: seq<AssignmentRow>, a: AssignmentRow, b: AssignmentRow)
    requires UniqueFlightDate(rows)
    requires a in rows && b in rows && IsFor(b, a.flightNumber, a.flightDate)
    ensures a == b
  {
    var i :| 0 <= i < |rows| && rows[i] == a;
    var j :| 0 <= j < |rows| && rows[j] == b;
    assert i == j;
  }

  // ---------------------------------------------------------------------
  // Writes, as functions from tables to tables
  // ---------------------------------------------------------------------

  function RowOf(a: FlightAssignment, id: nat): AssignmentRow
  {
    AssignmentRow(id, a.crewName, a.crewId, a.flightNumber, a.flightDate, a.aircraftType)
  }

  /** Inserts a header under the next id; the unique index on (flight
      number, date) refuses a second header for the same flight and date. */
  function Create(t: Tables, a: FlightAssignment): (r: Result<Tables>)
    ensures r.Ok? <==> Count(t.assignments, a.flightNumber, a.flightDate) == 0
    ensures r.Err? ==> r.error == UniqueFlightDateViolation
    ensures r.Ok? ==> r.value.assignments == t.assignments + [RowOf(a, t.nextId)]
                      && r.value.seats == t.seats && r.value.nextId == t.nextId + 1
    ensures Valid(t) && r.Ok? ==> Valid(r.value)
  {
    if Count(t.assignments, a.flightNumber, a.flightDate) > 0 then Err(UniqueFlightDateViolation)
    else
      var t' := Tables(t.assignments + [RowOf(a, t.nextId)], t.seats, t.nextId + 1);
      assert Valid(t) ==> UniqueFlightDate(t'.assignments) by {
        if Valid(t) {
          forall i, j | 0 <= i < j < |t'.assignments|
            ensures !IsFor(t'.assignments[j], t'.assignments[i].flightNumber, t'.assignments[i].flightDate)
          {
            assert t'.assignments[i] == t.assignments[i];
            if j == |t.assignments| {
              assert t.assignments[i] in t.assignments;
            } else {
              assert t'.assignments[j] == t.assignments[j];
            }
          }
        }
      }
      assert Valid(t) ==> SeatsOwned(t') by {
        forall s | s in t'.seats && Valid(t) ensures HasAssignment(t'.assignments, s.flightAssignmentId) {
          var o :| o in t.assignments && o.id == s.flightAssignmentId;
          assert o in t'.assignments;
        }
      }
      Ok(t')
  }

  /** Inserts seat rows in one statement: nothing for an empty list,
      otherwise all of them, unless one would repeat an (assignment, seat)
      pair already present or given twice. */
  function InsertSeats(t: Tables, rows: seq<FlightSeatAssignment>): (r: Result<Tables>)
    ensures |rows| == 0 ==> r == Ok(t)
    ensures |rows| > 0 && r.Ok? ==> r.value == t.(seats := t.seats + rows)
    ensures Distinct(t.seats) ==> (r.Ok? <==> Distinct(t.seats + rows))
    ensures r.Err? ==> r.error == UniqueSeatViolation
    ensures Valid(t) && r.Ok? && (forall s :: s in rows ==> HasAssignment(t.assignments, s.flightAssignmentId))
            ==> Valid(r.value)
  {
    if |rows| == 0 then Ok(t)
    else if Distinct(t.seats + rows) then Ok(t.(seats := t.seats + rows))
    else Err(UniqueSeatViolation)
  }

  /** Seat rows that survive deleting `victims` from assignment `id`. */
  function RemoveSeats(seats: seq<FlightSeatAssignment>, id: nat, victims: seq<string>)
    : (kept: seq<FlightSeatAssignment>)
    ensures |kept| <= |seats|
    ensures forall s :: s in kept <==> s in seats && !(s.flightAssignmentId == id && s.seat in victims)
    ensures Distinct(seats) ==> Distinct(kept)
  {
    if seats == [] then []
    else
      var rest := RemoveSeats(seats[1..], id, victims);
      if seats[0].flightAssignmentId == id && seats[0].seat in victims then rest
      else
        assert Distinct(seats) ==> seats[0] !in seats[1..];
        assert Distinct(seats) ==> Distinct(seats[1..]) by {
          if Distinct(seats) {
            forall i, j | 0 <= i < j < |seats[1..]| ensures seats[1..][i] != seats[1..][j] {
              assert seats[1..][i] == seats[i + 1] && seats[1..][j] == seats[j + 1];
            }
          }
        }
        [seats[0]] + rest
  }

  /** Deletes, from the first header for the filter's flight and date, the
      seat rows whose seat is listed in the filter; returns how many went. */
  function DeleteSeats(t: Tables, f: FlightFilter): (r: Result<(nat, Tables)>)
    ensures r.Err? <==> Count(t.assignments, f.flightNumber, f.date) == 0
    ensures r.Err? ==> r.error == RecordNotFound
    ensures r.Ok? ==>
      var (n, t') := r.value;
      var owner := FirstFor(t.assignments, f.flightNumber, f.date).value;
      && t'.assignments == t.assignments && t'.nextId == t.nextId
      && t'.seats == RemoveSeats(t.seats, owner.id, f.seats)
      && n == |t.seats| - |t'.seats|
    ensures Valid(t) && r.Ok? ==> Valid(r.value.1)
  {
    match FirstFor(t.assignments, f.flightNumber, f.date)
    case None => Err(RecordNotFound)
    case Some(owner) =>
      var kept := RemoveSeats(t.seats, owner.id, f.seats);
      Ok((|t.seats| - |kept|, t.(seats := kept)))
  }

  // ---------------------------------------------------------------------
  // The same operations as the engine answers them: `fault` is the error
  // the storage engine itself reports for the call (I/O, locking), or None.
  // ---------------------------------------------------------------------

  /** The count query; its error is dropped, leaving the count at zero. */
  function CountIn(t: Tables, flightNumber: string, date: string, fault: Option<string>): (n: nat)
    ensures n > 0 <==> fault.None? && exists a :: a in t.assignments && IsFor(a, flightNumber, date)
  {
    if fault.Some? then 0 else Count(t.assignments, flightNumber, date)
  }

  /** The assignment query; an engine error comes back with the query's
      prefix. */
  function GetByFilterIn(t: Tables, f: FlightFilter, fault: Option<string>): (r: Result<seq<FlightAssignment>>)
    ensures r.Err? <==> fault.Some?
    ensures r.Err? ==> r.error == QueryFailed + fault.value
    ensures r.Ok? ==> r.value == GetByFilter(t, f) && Answers(t, f, r.value)
  {
    GetByFilterAnswers(t, f);
    if fault.Some? then Err(QueryFailed + fault.value) else Ok(GetByFilter(t, f))
  }

  /** The header insert: it succeeds exactly when the engine does not fail
      and the flight and date have no header yet. */
  function CreateIn(t: Tables, a: FlightAssignment, fault: Option<string>): (r: Result<Tables>)
    ensures r.Ok? <==> fault.None? && Count(t.assignments, a.flightNumber, a.flightDate) == 0
    ensures r.Err? && fault.Some? ==> r.error == fault.value
    ensures r.Err? && fault.None? ==> r.error == UniqueFlightDateViolation
    ensures r.Ok? ==> r.value.assignments == t.assignments + [RowOf(a, t.nextId)]
                      && r.value.seats == t.seats && r.value.nextId == t.nextId + 1
    ensures Valid(t) && r.Ok? ==> Valid(r.value)
  {
    if fault.Some? then Err(fault.value) else Create(t, a)
  }

  /** The seat-row insert: an empty list succeeds without reaching the
      engine; otherwise it succeeds exactly when the engine does not fail
      and no (assignment, seat) pair would repeat. */
  function InsertSeatsIn(t: Tables, rows: seq<FlightSeatAssignment>, fault: Option<string>): (r: Result<Tables>)
    ensures |rows| == 0 ==> r == Ok(t)
    ensures |rows| > 0 ==> (r.Ok? <==> fault.None? && Distinct(t.seats + rows))
    ensures r.Err? && fault.Some? ==> r.error == fault.value
    ensures r.Err? && fault.None? ==> r.error == UniqueSeatViolation
    ensures r.Ok? ==> r.value.assignments == t.assignments && r.value.nextId == t.nextId
    ensures r.Ok? ==> forall s :: s in r.value.seats <==> s in t.seats || s in rows
    ensures Valid(t) && r.Ok? && (forall s :: s in rows ==> HasAssignment(t.assignments, s.flightAssignmentId))
            ==> Valid(r.value)
  {
    // The empty list returns before the engine is reached.
    if |rows| == 0 then Ok(t)
    else if fault.Some? then Err(fault.value)
    else InsertSeats(t, rows)
  }

  /** The seat delete: it succeeds exactly when the engine does not fail and
      a header exists for the flight and date; then the listed seats of the
      first such header are gone and every other row is kept. */
  function DeleteSeatsIn(t: Tables, f: FlightFilter, fault: Option<string>): (r: Result<(nat, Tables)>)
    ensures r.Ok? <==> fault.None? && Count(t.assignments, f.flightNumber, f.date) > 0
    ensures r.Err? && fault.Some? ==> r.error == fault.value
    ensures r.Err? && fault.None? ==> r.error == RecordNotFound
    ensures r.Ok? ==>
      var (n, t') := r.value;
      var owner := FirstFor(t.assignments, f.flightNumber, f.date).value;
      && t'.assignments == t.assignments && t'.nextId == t.nextId
      && (forall s :: s in t'.seats <==> s in t.seats && !(s.flightAssignmentId == owner.id && s.seat in f.seats))
      && n == |t.seats| - |t'.seats|
    ensures Valid(t) && r.Ok? ==> Valid(r.value.1)
  {
    if fault.Some? then Err(fault.value) else DeleteSeats(t, f)
  }

  // ---------------------------------------------------------------------
  // Database, transactions and the repository
  // ---------------------------------------------------------------------

  datatype TxStatus = Open | Committed | RolledBack

  /** Holds the committed tables. */
  class Database {
    var tables: Tables

    constructor (t: Tables)
      ensures tables == t
    {
      tables := t;
    }
  }

  /** A transaction on `db`: writes go to `pending`; commit publishes it,
      rollback drops it. Once finished, a transaction refuses further work. */
  class Tx {
    const db: Database
    var status: TxStatus
    var pending: Tables

    constructor Begin(db: Database)
      ensures this.db == db && status == Open && pending == db.tables
    {
      this.db := db;
      status := Open;
      pending := db.tables;
    }

    /** Publishes the pending tables. */
    method Commit(fault: Option<string>) returns (r: Result<()>)
      modifies this, db
      ensures pending == old(pending)
      ensures old(status) == Open && fault.None? ==>
        r == Ok(()) && status == Committed && db.tables == old(pending)
      ensures old(status) != Open ==> r == Err(TxDone) && status == old(status) && db.tables == old(db.tables)
      ensures old(status) == Open && fault.Some? ==>
        r == Err(fault.value) && status == Open && db.tables == old(db.tables)
    {
      if status != Open {
        r := Err(TxDone);
      } else if fault.Some? {
        r := Err(fault.value);
      } else {
        db.tables := pending;
        status := Committed;
        r := Ok(());
      }
    }

    /** Drops the pending tables; the committed ones are untouched. */
    method Rollback()
      modifies this
      ensures pending == old(pending)
      ensures status == if old(status) == Open then RolledBack else old(status)
    {
      if status == Open {
        status := RolledBack;
      }
    }
  }

  class FlightRepository {
    const db: Database

    constructor (db: Database)
      ensures this.db == db
    {
      this.db := db;
    }

    method BeginTx() returns (tx: Tx)
      ensures fresh(tx) && tx.db == db && tx.status == Open && tx.pending == db.tables
    {
      tx := new Tx.Begin(db);
    }

    /** Count of committed headers for (flightNumber, date). */
    function CountByFlightAndDate(flightNumber: string, date: string, fault: Option<string>): (n: nat)
      reads db
      ensures n > 0 <==> fault.None? && exists a :: a in db.tables.assignments && IsFor(a, flightNumber, date)
    {
      CountIn(db.tables, flightNumber, date, fault)
    }

    /** Count of headers for (flightNumber, date) as the transaction sees them. */
    function CountByFlightAndDateTx(tx: Tx, flightNumber: string, date: string, fault: Option<string>): (n: nat)
      reads tx
      ensures n > 0 <==> tx.status == Open && fault.None?
                         && exists a :: a in tx.pending.assignments && IsFor(a, flightNumber, date)
    {
      if tx.status != Open then 0 else CountIn(tx.pending, flightNumber, date, fault)
    }

    function GetByFilter(f: FlightFilter, fault: Option<string>): (r: Result<seq<FlightAssignment>>)
      reads db
      ensures r.Err? <==> fault.Some?
      ensures r.Err? ==> r.error == QueryFailed + fault.value
      ensures r.Ok? ==> r.value == Query(db.tables.assignments, db.tables.seats, f) && Answers(db.tables, f, r.value)
    {
      GetByFilterIn(db.tables, f, fault)
    }

    function GetByFilterTx(tx: Tx, f: FlightFilter, fault: Option<string>): (r: Result<seq<FlightAssignment>>)
      reads tx
      ensures r.Err? <==> tx.status != Open || fault.Some?
      ensures tx.status != Open ==> r.error == QueryFailed + TxDone
      ensures tx.status == Open && fault.Some? ==> r.error == QueryFailed + fault.value
      ensures r.Ok? ==> r.value == Query(tx.pending.assignments, tx.pending.seats, f) && Answers(tx.pending, f, r.value)
    {
      if tx.status != Open then Err(QueryFailed + TxDone) else GetByFilterIn(tx.pending, f, fault)
    }

    method DeleteSeatsByFilterTx(tx: Tx, f: FlightFilter, fault: Option<string>) returns (r: Result<nat>)
      modifies tx
      ensures tx.status == old(tx.status)
      ensures old(tx.status) != Open ==> r == Err(TxDone) && tx.pending == old(tx.pending)
      ensures old(tx.status) == Open ==>
        var d := DeleteSeatsIn(old(tx.pending), f, fault);
        && (d.Err? ==> r == Err(d.error) && tx.pending == old(tx.pending))
        && (d.Ok? ==> r == Ok(d.value.0) && tx.pending == d.value.1)
    {
      if tx.status != Open {
        return Err(TxDone);
      }
      var d := DeleteSeatsIn(tx.pending, f, fault);
      if d.Err? {
        r := Err(d.error);
      } else {
        tx.pending := d.value.1;
        r := Ok(d.value.0);
      }
    }

    method BulkCreateSeatAssignmentsTx(tx: Tx, rows: seq<FlightSeatAssignment>, fault: Option<string>)
      returns (r: Result<()>)
      modifies tx
      ensures tx.status == old(tx.status)
      ensures |rows| == 0 ==> r == Ok(()) && tx.pending == old(tx.pending)
      ensures |rows| > 0 && old(tx.status) != Open ==> r == Err(TxDone) && tx.pending == old(tx.pending)
      ensures |rows| > 0 && old(tx.status) == Open ==>
        var d := InsertSeatsIn(old(tx.pending), rows, fault);
        && (d.Err? ==> r == Err(d.error) && tx.pending == old(tx.pending))
        && (d.Ok? ==> r == Ok(()) && tx.pending == d.value)
    {
      if |rows| == 0 {
        return Ok(());
      }
      if tx.status != Open {
        return Err(TxDone);
      }
      var d := InsertSeatsIn(tx.pending, rows, fault);
      if d.Err? {
        r := Err(d.error);
      } else {
        tx.pending := d.value;
        r := Ok(());
      }
    }

    /** Inserts the header; on success returns it with its new id. */
    method CreateTx(tx: Tx, a: FlightAssignment, fault: Option<string>) returns (r: Result<FlightAssignment>)
      modifies tx
      ensures tx.status == old(tx.status)
      ensures old(tx.status) != Open ==> r == Err(TxDone) && tx.pending == old(tx.pending)
      ensures old(tx.status) == Open ==>
        var d := CreateIn(old(tx.pending), a, fault);
        && (d.Err? ==> r == Err(d.error) && tx.pending == old(tx.pending))
        && (d.Ok? ==> r == Ok(a.(id := old(tx.pending).nextId)) && tx.pending == d.value)
    {
      if tx.status != Open {
        return Err(TxDone);
      }
      var d := CreateIn(tx.pending, a, fault);
      if d.Err? {
        r := Err(d.error);
      } else {
        r := Ok(a.(id := tx.pending.nextId));
        tx.pending := d.value;
      }
    }
  }
}
