/** The assignment workflow: one transaction that either creates a fresh
    assignment with three seats, or replaces the listed seats of the
    existing assignment for the flight and date, and then commits and
    re-reads the assignment. */
module Usecase {
  import opened Wrappers
  import opened Model
  import opened Utils
  import opened Persistent

  /** The seat allocator as the workflow calls it: aircraft type, number of
      seats, seats already held. Its randomness makes it an arbitrary
      function here. */
  type Allocator = (AircraftType, nat, seq<string>) -> Result<seq<string>>

  /** Seats drawn for a fresh assignment. */
  const NewAssignmentSeats: nat := 3

  const GenerateFailed := "failed to generate seats: "
  const CreateFailed := "failed to create assignment in DB: "
  const SeatsFailed := "failed to create seat assignments: "
  const AlreadyExists := "assignment for this flight and date already exists and no seats to change"
  const NoMatch := "no matching assignment found after seat deletion"
  const DeleteFailed := "failed to delete seats: "
  const RecreateFailed := "failed to re-create seat assignments: "
  const CommitFailed := "failed to commit transaction: "
  const IndexOutOfRange := "runtime error: index out of range [0] with length 0"

  /** The error the storage engine reports for each call of the workflow,
      or None when the call reaches the tables. */
  datatype Faults = Faults(
    count: Option<string>,
    create: Option<string>,
    lookup: Option<string>,
    delete: Option<string>,
    insertSeats: Option<string>,
    commit: Option<string>,
    reread: Option<string>)

  const NoFaults := Faults(None, None, None, None, None, None, None)

  /** What the caller sees: the assignment, an error, or a crash. */
  datatype Outcome = Assigned(assignment: FlightAssignment) | Failed(message: string) | Panic(message: string)

  /** The outcome, the committed tables afterwards, and how the
      transaction was left. */
  datatype Run = Run(outcome: Outcome, tables: Tables, status: TxStatus)

  /** One seat row per seat, in order, all owned by assignment `id`. */
  function SeatRowsFor(id: nat, seats: seq<string>): (rows: seq<FlightSeatAssignment>)
    ensures |rows| == |seats|
    ensures forall s :: s in rows <==> s.flightAssignmentId == id && s.seat in seats
  {
    if seats == [] then [] else [FlightSeatAssignment(id, seats[0])] + SeatRowsFor(id, seats[1..])
  }

  /** Extracting the seat codes of the built rows gives the seats back. */
  lemma {:induction false} SeatRowsRoundTrip(id: nat, seats: seq<string>)
    ensures SeatCodes(SeatRowsFor(id, seats)) == seats
  {
    if seats != [] {
      SeatRowsRoundTrip(id, seats[1..]);
      assert SeatRowsFor(id, seats)[1..] == SeatRowsFor(id, seats[1..]);
    }
  }

  /** Row `k` pairs seat `k` with the owner. */
  lemma {:induction false} SeatRowsAt(id: nat, seats: seq<string>)
    ensures forall k :: 0 <= k < |seats| ==> SeatRowsFor(id, seats)[k] == FlightSeatAssignment(id, seats[k])
  {
    if seats != [] {
      SeatRowsAt(id, seats[1..]);
      var rows := SeatRowsFor(id, seats);
      forall k | 1 <= k < |seats| ensures rows[k] == FlightSeatAssignment(id, seats[k]) {
        assert rows[k] == SeatRowsFor(id, seats[1..])[k - 1];
      }
    }
  }

  /** Distinct seats give distinct rows, and back. */
  lemma SeatRowsDistinct(id: nat, seats: seq<string>)
    ensures Distinct(SeatRowsFor(id, seats)) <==> Distinct(seats)
  {
    SeatRowsAt(id, seats);
  }

  /** Builds the seat rows of `seats` for assignment `id`. */
  method BuildSeatAssignments(id: nat, seats: seq<string>) returns (rows: seq<FlightSeatAssignment>)
    ensures rows == SeatRowsFor(id, seats)
  {
    rows := [];
    for i := 0 to |seats|
      invariant rows == SeatRowsFor(id, seats[..i])
    {
      SeatRowsAppend(id, seats[..i], seats[i]);
      assert seats[..i + 1] == seats[..i] + [seats[i]];
      rows := rows + [FlightSeatAssignment(id, seats[i])];
    }
    assert seats[..|seats|] == seats;
  }

  lemma {:induction false} SeatRowsAppend(id: nat, seats: seq<string>, seat: string)
    ensures SeatRowsFor(id, seats + [seat]) == SeatRowsFor(id, seats) + [FlightSeatAssignment(id, seat)]
  {
    if seats != [] {
      assert (seats + [seat])[1..] == seats[1..] + [seat];
      SeatRowsAppend(id, seats[1..], seat);
    } else {
      assert seats + [seat] == [seat];
    }
  }

  /** The header a fresh request inserts; the store assigns its id. */
  function Header(req: GenerateRequest): FlightAssignment
  {
    FlightAssignment(0, req.crewName, req.crewId, req.flightNumber, req.date, req.aircraft, [])
  }

  function LookupFilter(req: GenerateRequest): FlightFilter
  {
    FlightFilter(req.flightNumber, req.date, req.seatsToChange)
  }

  function RereadFilter(req: GenerateRequest): FlightFilter
  {
    FlightFilter(req.flightNumber, req.date, [])
  }

  /** The transaction's end: commit the pending tables `t2`, then read the
      assignment back outside the transaction and return its first entry. */
  function Finish(t: Tables, t2: Tables, req: GenerateRequest, faults: Faults): (run: Run)
    ensures faults.commit.Some? ==> run == Run(Failed(CommitFailed + faults.commit.value), t, RolledBack)
    ensures faults.commit.None? ==> run.tables == t2 && run.status == Committed && !run.outcome.Failed?
    ensures run.outcome.Assigned? ==>
      && faults.reread.None? && |GetByFilter(t2, RereadFilter(req))| > 0
      && run.outcome.assignment == GetByFilter(t2, RereadFilter(req))[0]
    ensures (faults.commit.None? && faults.reread.None?
             && exists a :: a in t2.assignments && Selected(a, t2.seats, RereadFilter(req)))
            ==> run.outcome.Assigned?
  {
    if faults.commit.Some? then Run(Failed(CommitFailed + faults.commit.value), t, RolledBack)
    else
      match GetByFilterIn(t2, RereadFilter(req), faults.reread)
      case Err(_) => Run(Panic(IndexOutOfRange), t2, Committed)
      case Ok(found) =>
        if |found| == 0 then Run(Panic(IndexOutOfRange), t2, Committed)
        else Run(Assigned(found[0]), t2, Committed)
  }

  /** How the writes inside the transaction end: abandoned with an error
      message and the transaction left in `status`, or ready to commit the
      pending tables. */
  datatype Stage = Abandon(message: string, status: TxStatus) | Ready(pending: Tables)

  /** No assignment exists yet: draw three seats, insert the header, then
      its seat rows. */
  function CreateStage(t: Tables, req: GenerateRequest, alloc: Allocator, faults: Faults): (st: Stage)
    ensures st.Abandon? ==> st.status != Committed
    ensures st.Abandon? && st.status == Open ==> alloc(req.aircraft, NewAssignmentSeats, []).Err?
    ensures st.Ready? ==> Count(t.assignments, req.flightNumber, req.date) == 0
    ensures st.Ready? ==> st.pending.assignments == t.assignments + [RowOf(Header(req), t.nextId)]
  {
    match alloc(req.aircraft, NewAssignmentSeats, [])
    case Err(e) => Abandon(GenerateFailed + e, Open)
    case Ok(seats) =>
      match CreateIn(t, Header(req), faults.create)
      case Err(e) => Abandon(CreateFailed + e, RolledBack)
      case Ok(t1) =>
        var rows := SeatRowsFor(t.nextId, seats);
        match InsertSeatsIn(t1, rows, faults.insertSeats)
        case Err(e) => Abandon(SeatsFailed + e, RolledBack)
        case Ok(t2) => Ready(t2)
  }

  /** An assignment exists: refuse an empty seat list; otherwise find the
      assignment holding one of the listed seats, draw replacements, delete
      the listed seats and insert the replacements. */
  function ReplaceStage(t: Tables, req: GenerateRequest, alloc: Allocator, faults: Faults): (st: Stage)
    ensures st.Abandon? ==> st.status != Committed
    ensures |req.seatsToChange| == 0 ==> st == Abandon(AlreadyExists, RolledBack)
    ensures st.Abandon? && st.status == Open ==>
      var found := GetByFilterIn(t, LookupFilter(req), faults.lookup);
      && found.Ok? && |found.value| > 0
      && alloc(req.aircraft, |req.seatsToChange|, SeatCodes(found.value[0].seatAssignments)).Err?
    ensures st.Ready? ==> st.pending.assignments == t.assignments && st.pending.nextId == t.nextId
  {
    if |req.seatsToChange| == 0 then Abandon(AlreadyExists, RolledBack)
    else
      match GetByFilterIn(t, LookupFilter(req), faults.lookup)
      case Err(_) => Abandon(NoMatch, RolledBack)
      case Ok(found) =>
        if |found| == 0 then Abandon(NoMatch, RolledBack)
        else
          var target := found[0];
          match alloc(req.aircraft, |req.seatsToChange|, SeatCodes(target.seatAssignments))
          case Err(e) => Abandon(GenerateFailed + e, Open)
          case Ok(seats) =>
            match DeleteSeatsIn(t, LookupFilter(req), faults.delete)
            case Err(e) => Abandon(DeleteFailed + e, RolledBack)
            case Ok(deleted) =>
              var rows := SeatRowsFor(target.id, seats);
              match InsertSeatsIn(deleted.1, rows, faults.insertSeats)
              case Err(e) => Abandon(RecreateFailed + e, RolledBack)
              case Ok(t2) => Ready(t2)
  }

  /** The stage the workflow reaches on the committed tables `t`. */
  function StageOf(t: Tables, req: GenerateRequest, alloc: Allocator, faults: Faults): (st: Stage)
    ensures st.Abandon? ==> st.status != Committed
    ensures st.Ready? && Count(t.assignments, req.flightNumber, req.date) == 0 ==>
      st.pending.assignments == t.assignments + [RowOf(Header(req), t.nextId)]
    ensures st.Ready? && Count(t.assignments, req.flightNumber, req.date) > 0 ==>
      st.pending.assignments == t.assignments && st.pending.nextId == t.nextId
  {
    if CountIn(t, req.flightNumber, req.date, faults.count) == 0 then CreateStage(t, req, alloc, faults)
    else ReplaceStage(t, req, alloc, faults)
  }

  /** The whole workflow on the committed tables `t`. */
  function Workflow(t: Tables, req: GenerateRequest, alloc: Allocator, faults: Faults): (run: Run)
    ensures run.status == Committed <==> !run.outcome.Failed?
    ensures run.status != Committed ==> run.tables == t
    ensures run.status == Committed ==>
      exists a :: a in run.tables.assignments && IsFor(a, req.flightNumber, req.date)
  {
    match StageOf(t, req, alloc, faults)
    case Abandon(message, status) => Run(Failed(message), t, status)
    case Ready(t2) =>
      assert CountIn(t, req.flightNumber, req.date, faults.count) == 0 ==>
        RowOf(Header(req), t.nextId) in t2.assignments;
      Finish(t, t2, req, faults)
  }

  // ---------------------------------------------------------------------
  // Properties of the workflow
  // ---------------------------------------------------------------------

  /** The seat rows of assignments already in the table carry ids below
      `nextId`, so none belongs to the header the next insert creates. */
  lemma NoSeatsForNextId(t: Tables)
    requires Valid(t)
    ensures forall s :: s in t.seats ==> s.flightAssignmentId != t.nextId
  {
    forall s | s in t.seats ensures s.flightAssignmentId != t.nextId {
      var a :| a in t.assignments && a.id == s.flightAssignmentId;
      var i :| 0 <= i < |t.assignments| && t.assignments[i] == a;
    }
  }

  /** The pending tables after a fresh request inserted its header and the
      rows of `seats`. */
  function Created(t: Tables, req: GenerateRequest, seats: seq<string>): Tables
  {
    Tables(t.assignments + [RowOf(Header(req), t.nextId)], t.seats + SeatRowsFor(t.nextId, seats), t.nextId + 1)
  }

  /** With no storage errors and distinct seats drawn, a fresh request
      reaches the commit with exactly its header and seat rows added. */
  lemma CreateReachesCommit(t: Tables, req: GenerateRequest, alloc: Allocator)
    requires Valid(t)
    requires Count(t.assignments, req.flightNumber, req.date) == 0
    requires alloc(req.aircraft, NewAssignmentSeats, []).Ok?
    requires var seats := alloc(req.aircraft, NewAssignmentSeats, []).value;
             |seats| > 0 && Distinct(seats)
    ensures var seats := alloc(req.aircraft, NewAssignmentSeats, []).value;
            && Workflow(t, req, alloc, NoFaults) == Finish(t, Created(t, req, seats), req, NoFaults)
            && Valid(Created(t, req, seats))
  {
    var seats := alloc(req.aircraft, NewAssignmentSeats, []).value;
    var rows := SeatRowsFor(t.nextId, seats);
    var t1 := Create(t, Header(req)).value;
    NoSeatsForNextId(t);
    SeatRowsDistinct(t.nextId, seats);
    DistinctConcat(t.seats, rows);
    assert InsertSeatsIn(t1, rows, None) == Ok(Created(t, req, seats));
  }

  /** The new header owns exactly the rows just inserted. */
  lemma CreatedSeats(t: Tables, req: GenerateRequest, seats: seq<string>)
    requires Valid(t)
    ensures SeatsOf(Created(t, req, seats).seats, t.nextId) == SeatRowsFor(t.nextId, seats)
    ensures Populate(RowOf(Header(req), t.nextId), Created(t, req, seats).seats)
            == FlightAssignment(t.nextId, req.crewName, req.crewId, req.flightNumber,
                                req.date, req.aircraft, SeatRowsFor(t.nextId, seats))
  {
    var rows := SeatRowsFor(t.nextId, seats);
    SeatsOfAppend(t.seats, rows, t.nextId);
    NoSeatsForNextId(t);
    SeatsOfNone(t.seats, t.nextId);
    SeatsOfAll(rows, t.nextId);
  }

  /** The new header has a seat row, so the read-back join finds it. */
  lemma CreatedSelected(t: Tables, req: GenerateRequest, seats: seq<string>)
    requires |seats| > 0
    ensures Selected(RowOf(Header(req), t.nextId), Created(t, req, seats).seats, RereadFilter(req))
  {
    var rows := SeatRowsFor(t.nextId, seats);
    assert rows[0] in rows;
    assert rows[0] in Created(t, req, seats).seats;
  }

  /** Reading back a freshly created assignment returns its header,
      populated, and nothing else. */
  lemma CreatedReadBack(t: Tables, req: GenerateRequest, seats: seq<string>)
    requires UniqueFlightDate(Created(t, req, seats).assignments) && |seats| > 0
    ensures GetByFilter(Created(t, req, seats), RereadFilter(req))
            == [Populate(RowOf(Header(req), t.nextId), Created(t, req, seats).seats)]
  {
    var header := RowOf(Header(req), t.nextId);
    CreatedSelected(t, req, seats);
    assert header in Created(t, req, seats).assignments;
    QueryIsTheSelected(Created(t, req, seats), RereadFilter(req), header);
  }

  /** A fresh request for a flight and date with no assignment, with no
      storage errors and distinct seats drawn, commits the header under the
      next id with those seats and returns it populated; the seat codes of
      the result are the drawn seats, and the flight and date now have
      exactly one assignment. */
  lemma CreateRoundTrip(t: Tables, req: GenerateRequest, alloc: Allocator)
    requires Valid(t)
    requires Count(t.assignments, req.flightNumber, req.date) == 0
    requires alloc(req.aircraft, NewAssignmentSeats, []).Ok?
    requires var seats := alloc(req.aircraft, NewAssignmentSeats, []).value;
             |seats| > 0 && Distinct(seats)
    ensures var seats := alloc(req.aircraft, NewAssignmentSeats, []).value;
            var run := Workflow(t, req, alloc, NoFaults);
            && run.status == Committed
            && run.tables == Created(t, req, seats)
            && run.outcome == Assigned(FlightAssignment(t.nextId, req.crewName, req.crewId, req.flightNumber,
                                                        req.date, req.aircraft, SeatRowsFor(t.nextId, seats)))
            && SeatCodes(run.outcome.assignment.seatAssignments) == seats
            && Count(run.tables.assignments, req.flightNumber, req.date) == 1
  {
    var seats := alloc(req.aircraft, NewAssignmentSeats, []).value;
    CreateReachesCommit(t, req, alloc);
    CreatedReadBack(t, req, seats);
    CreatedSeats(t, req, seats);
    SeatRowsRoundTrip(t.nextId, seats);
    var t2 := Created(t, req, seats);
    CountAtMostOne(t2.assignments, req.flightNumber, req.date);
    assert RowOf(Header(req), t.nextId) in t2.assignments;
  }

  /** For a flight and date that already have an assignment, a request with
      no seats to change is refused and rolled back, the tables untouched. */
  lemma RepeatRequestRejected(t: Tables, req: GenerateRequest, alloc: Allocator, faults: Faults)
    requires exists a :: a in t.assignments && IsFor(a, req.flightNumber, req.date)
    requires faults.count.None? && |req.seatsToChange| == 0
    ensures Workflow(t, req, alloc, faults) == Run(Failed(AlreadyExists), t, RolledBack)
  {
  }

  /** Once a run has committed, asking again for the same flight and date
      without seats to change is refused: one assignment per flight and
      date. */
  lemma SecondAssignmentRejected(t: Tables, req: GenerateRequest, alloc: Allocator, faults: Faults,
                                 again: GenerateRequest, alloc2: Allocator, faults2: Faults)
    requires Workflow(t, req, alloc, faults).status == Committed
    requires again.flightNumber == req.flightNumber && again.date == req.date
    requires faults2.count.None? && |again.seatsToChange| == 0
    ensures var after := Workflow(t, req, alloc, faults).tables;
            Workflow(after, again, alloc2, faults2) == Run(Failed(AlreadyExists), after, RolledBack)
  {
    RepeatRequestRejected(Workflow(t, req, alloc, faults).tables, again, alloc2, faults2);
  }

  /** The pending tables after a seat change of assignment `id`: its listed
      seats removed, the new seats appended. */
  function Replaced(t: Tables, id: nat, listed: seq<string>, added: seq<string>): Tables
  {
    var kept := RemoveSeats(t.seats, id, listed);
    if |added| == 0 then t.(seats := kept) else t.(seats := kept + SeatRowsFor(id, added))
  }

  /** Under the unique index, a lookup for the flight and date that finds
      anything finds the one assignment `a`, populated. */
  lemma LookupFindsTheAssignment(t: Tables, f: FlightFilter, a: AssignmentRow)
    requires UniqueFlightDate(t.assignments)
    requires a in t.assignments && IsFor(a, f.flightNumber, f.date)
    requires |GetByFilter(t, f)| > 0
    ensures GetByFilter(t, f)[0] == Populate(a, t.seats)
  {
    var found := GetByFilter(t, f);
    assert found[0] in found;
    var b :| b in t.assignments && Selected(b, t.seats, f) && found[0] == Populate(b, t.seats);
    OnlyMatch(t.assignments, a, b);
  }

  /** Under the unique index, the delete works on the one assignment `a`. */
  lemma DeleteHitsTheAssignment(t: Tables, f: FlightFilter, a: AssignmentRow)
    requires UniqueFlightDate(t.assignments)
    requires a in t.assignments && IsFor(a, f.flightNumber, f.date)
    ensures DeleteSeats(t, f).Ok?
    ensures DeleteSeats(t, f).value.1 == t.(seats := RemoveSeats(t.seats, a.id, f.seats))
  {
    OnlyMatch(t.assignments, a, FirstFor(t.assignments, f.flightNumber, f.date).value);
  }

  /** A seat change that commits went through the lookup, the draw, the
      delete and the insert for the one assignment `a` of the flight and
      date, with everything `a` held passed to the allocator. */
  lemma ReplaceReachesCommit(t: Tables, req: GenerateRequest, alloc: Allocator, faults: Faults, a: AssignmentRow)
    requires UniqueFlightDate(t.assignments)
    requires a in t.assignments && IsFor(a, req.flightNumber, req.date)
    requires CountIn(t, req.flightNumber, req.date, faults.count) > 0
    requires Workflow(t, req, alloc, faults).status == Committed
    ensures |req.seatsToChange| > 0
    ensures alloc(req.aircraft, |req.seatsToChange|, SeatCodes(SeatsOf(t.seats, a.id))).Ok?
    ensures Workflow(t, req, alloc, faults)
            == Finish(t, Replaced(t, a.id, req.seatsToChange,
                                  alloc(req.aircraft, |req.seatsToChange|, SeatCodes(SeatsOf(t.seats, a.id))).value),
                      req, faults)
    ensures var newSeats := alloc(req.aircraft, |req.seatsToChange|, SeatCodes(SeatsOf(t.seats, a.id))).value;
            InsertSeatsIn(t.(seats := RemoveSeats(t.seats, a.id, req.seatsToChange)), SeatRowsFor(a.id, newSeats),
                          faults.insertSeats)
            == Ok(Replaced(t, a.id, req.seatsToChange, newSeats))
  {
    assert StageOf(t, req, alloc, faults) == ReplaceStage(t, req, alloc, faults);
    assert |GetByFilter(t, LookupFilter(req))| > 0;
    LookupFindsTheAssignment(t, LookupFilter(req), a);
    DeleteHitsTheAssignment(t, LookupFilter(req), a);
  }

  /** Every run keeps the store invariant: one assignment per flight and
      date, no seat row twice, ids increasing, every seat row owned. */
  lemma WorkflowPreservesValid(t: Tables, req: GenerateRequest, alloc: Allocator, faults: Faults)
    requires Valid(t)
    ensures Valid(Workflow(t, req, alloc, faults).tables)
  {
    var run := Workflow(t, req, alloc, faults);
    if run.status == Committed {
      if CountIn(t, req.flightNumber, req.date, faults.count) == 0 {
        CreateCommitted(t, req, alloc, faults);
      } else {
        var a :| a in t.assignments && IsFor(a, req.flightNumber, req.date);
        ReplaceReachesCommit(t, req, alloc, faults, a);
        var newSeats := alloc(req.aircraft, |req.seatsToChange|, SeatCodes(SeatsOf(t.seats, a.id))).value;
        var t1 := t.(seats := RemoveSeats(t.seats, a.id, req.seatsToChange));
        assert Valid(t1);
        assert HasAssignment(t1.assignments, a.id);
        assert Valid(Replaced(t, a.id, req.seatsToChange, newSeats));
      }
    }
  }

  /** What a committed seat change does, for the assignment `a` of the
      requested flight and date: headers stay as they are; the listed seats
      of `a` are gone, the drawn replacements are held by `a`, and every
      other seat row, of `a` or of any other assignment, is untouched. The
      allocator was told every seat `a` held. A returned assignment is `a`
      with its new seat rows. */
  lemma ReplaceEffect(t: Tables, req: GenerateRequest, alloc: Allocator, a: AssignmentRow)
    requires Valid(t)
    requires a in t.assignments && IsFor(a, req.flightNumber, req.date)
    requires Workflow(t, req, alloc, NoFaults).status == Committed
    ensures |req.seatsToChange| > 0
    ensures alloc(req.aircraft, |req.seatsToChange|, SeatCodes(SeatsOf(t.seats, a.id))).Ok?
    ensures var newSeats := alloc(req.aircraft, |req.seatsToChange|, SeatCodes(SeatsOf(t.seats, a.id))).value;
            var run := Workflow(t, req, alloc, NoFaults);
            && run.tables.assignments == t.assignments && run.tables.nextId == t.nextId
            && (forall s :: s in run.tables.seats <==>
                  || (s in t.seats && !(s.flightAssignmentId == a.id && s.seat in req.seatsToChange))
                  || (s.flightAssignmentId == a.id && s.seat in newSeats))
            && (run.outcome.Assigned? ==> run.outcome.assignment == Populate(a, run.tables.seats))
  {
    assert CountIn(t, req.flightNumber, req.date, None) > 0;
    ReplaceReachesCommit(t, req, alloc, NoFaults, a);
    var run := Workflow(t, req, alloc, NoFaults);
    var t2 := run.tables;
    if run.outcome.Assigned? {
      var got := run.outcome.assignment;
      assert got in GetByFilter(t2, RereadFilter(req));
      var c :| c in t2.assignments && Selected(c, t2.seats, RereadFilter(req)) && got == Populate(c, t2.seats);
      OnlyMatch(t.assignments, a, c);
    }
  }

  /** The seats an assignment holds after its listed seats are removed and
      the new ones added. */
  lemma HeldAfterReplace(before: seq<FlightSeatAssignment>, after: seq<FlightSeatAssignment>, id: nat,
                         listed: seq<string>, added: seq<string>)
    requires forall s :: s in after <==>
      || (s in before && !(s.flightAssignmentId == id && s.seat in listed))
      || (s.flightAssignmentId == id && s.seat in added)
    ensures Held(after, id) == (Held(before, id) - Elems(listed)) + Elems(added)
  {
    forall c | c in Held(after, id) ensures c in (Held(before, id) - Elems(listed)) + Elems(added) {
      var s :| s in after && s.flightAssignmentId == id && s.seat == c;
    }
    forall c | c in (Held(before, id) - Elems(listed)) + Elems(added) ensures c in Held(after, id) {
      if c in added {
        assert FlightSeatAssignment(id, c) in after;
      } else {
        var s :| s in before && s.flightAssignmentId == id && s.seat == c;
        assert s in after;
      }
    }
  }

  /** Giving up some held seats and taking as many seats not held before
      leaves the number held unchanged. */
  lemma SwapKeepsCount(held: set<string>, released: set<string>, taken: set<string>)
    requires released <= held && taken !! held && |taken| == |released|
    ensures |(held - released) + taken| == |held|
  {
    assert |held - released| == |held| - |released| by {
      assert held == (held - released) + released;
    }
    assert (held - released) !! taken;
  }

  /** Under the conditions the allocator is meant to meet, a seat change
      keeps the number of seats held: the listed seats are distinct and all
      held, and the replacements are as many, distinct, and none of them
      already held. */
  lemma ReplaceKeepsSeatCount(t: Tables, req: GenerateRequest, alloc: Allocator, a: AssignmentRow)
    requires Valid(t)
    requires a in t.assignments && IsFor(a, req.flightNumber, req.date)
    requires Workflow(t, req, alloc, NoFaults).status == Committed
    requires Distinct(req.seatsToChange) && Elems(req.seatsToChange) <= Held(t.seats, a.id)
    requires var drawn := alloc(req.aircraft, |req.seatsToChange|, SeatCodes(SeatsOf(t.seats, a.id)));
             drawn.Ok? ==> (&& |drawn.value| == |req.seatsToChange| && Distinct(drawn.value)
                            && Elems(drawn.value) !! Held(t.seats, a.id))
    ensures var drawn := alloc(req.aircraft, |req.seatsToChange|, SeatCodes(SeatsOf(t.seats, a.id)));
            var after := Workflow(t, req, alloc, NoFaults).tables;
            && drawn.Ok?
            && Held(after.seats, a.id) == (Held(t.seats, a.id) - Elems(req.seatsToChange)) + Elems(drawn.value)
            && |Held(after.seats, a.id)| == |Held(t.seats, a.id)|
  {
    ReplaceEffect(t, req, alloc, a);
    var after := Workflow(t, req, alloc, NoFaults).tables;
    var newSeats := alloc(req.aircraft, |req.seatsToChange|, SeatCodes(SeatsOf(t.seats, a.id))).value;
    HeldAfterReplace(t.seats, after.seats, a.id, req.seatsToChange, newSeats);
    DistinctCard(req.seatsToChange);
    DistinctCard(newSeats);
    SwapKeepsCount(Held(t.seats, a.id), Elems(req.seatsToChange), Elems(newSeats));
  }

  /** A fresh request that commits went through the draw and both inserts;
      the store invariant holds for what it commits. */
  lemma CreateCommitted(t: Tables, req: GenerateRequest, alloc: Allocator, faults: Faults)
    requires CountIn(t, req.flightNumber, req.date, faults.count) == 0
    requires Workflow(t, req, alloc, faults).status == Committed
    ensures alloc(req.aircraft, NewAssignmentSeats, []).Ok?
    ensures var seats := alloc(req.aircraft, NewAssignmentSeats, []).value;
            Workflow(t, req, alloc, faults) == Finish(t, Created(t, req, seats), req, faults)
    ensures Valid(t) ==> Valid(Workflow(t, req, alloc, faults).tables)
  {
    var st := CreateStage(t, req, alloc, faults);
    assert StageOf(t, req, alloc, faults) == st;
    assert st.Ready?;
    var seats := alloc(req.aircraft, NewAssignmentSeats, []).value;
    var t1 := CreateIn(t, Header(req), faults.create).value;
    var rows := SeatRowsFor(t.nextId, seats);
    var t2 := InsertSeatsIn(t1, rows, faults.insertSeats).value;
    assert st == Ready(t2);
    assert t2 == Created(t, req, seats) by {
      if |rows| == 0 {
        assert t.seats + rows == t.seats;
      }
    }
    assert RowOf(Header(req), t.nextId) in t1.assignments;
  }

  /** With the re-read succeeding and an allocator that returns as many
      seats as asked, the workflow never indexes an empty result. */
  lemma NoPanic(t: Tables, req: GenerateRequest, alloc: Allocator, faults: Faults)
    requires Valid(t)
    requires faults.reread.None?
    requires forall n: nat, held: seq<string> ::
      alloc(req.aircraft, n, held).Ok? ==> |alloc(req.aircraft, n, held).value| == n
    ensures !Workflow(t, req, alloc, faults).outcome.Panic?
  {
    var run := Workflow(t, req, alloc, faults);
    if run.status == Committed {
      var filter := RereadFilter(req);
      if CountIn(t, req.flightNumber, req.date, faults.count) == 0 {
        CreateCommitted(t, req, alloc, faults);
        var seats := alloc(req.aircraft, NewAssignmentSeats, []).value;
        CreatedSelected(t, req, seats);
        assert RowOf(Header(req), t.nextId) in Created(t, req, seats).assignments;
      } else {
        var a :| a in t.assignments && IsFor(a, req.flightNumber, req.date);
        ReplaceReachesCommit(t, req, alloc, faults, a);
        var newSeats := alloc(req.aircraft, |req.seatsToChange|, SeatCodes(SeatsOf(t.seats, a.id))).value;
        var t2 := Replaced(t, a.id, req.seatsToChange, newSeats);
        var rows := SeatRowsFor(a.id, newSeats);
        assert rows[0] in rows;
        assert rows[0] in t2.seats;
        assert Selected(a, t2.seats, filter);
      }
    }
  }

  /** A failed draw for a new assignment returns the allocator's error and
      leaves the transaction open, with nothing committed. */
  lemma GenerationFailureLeavesTxOpen(t: Tables, req: GenerateRequest, alloc: Allocator, faults: Faults)
    requires Count(t.assignments, req.flightNumber, req.date) == 0 || faults.count.Some?
    requires alloc(req.aircraft, NewAssignmentSeats, []).Err?
    ensures Workflow(t, req, alloc, faults)
            == Run(Failed(GenerateFailed + alloc(req.aircraft, NewAssignmentSeats, []).error), t, Open)
  {
  }

  /** A failed header insert is rolled back and reported with the store's
      error. */
  lemma CreateFailureRollsBack(t: Tables, req: GenerateRequest, alloc: Allocator, faults: Faults)
    requires Count(t.assignments, req.flightNumber, req.date) == 0 && faults.count.None?
    requires alloc(req.aircraft, NewAssignmentSeats, []).Ok? && faults.create.Some?
    ensures Workflow(t, req, alloc, faults) == Run(Failed(CreateFailed + faults.create.value), t, RolledBack)
  {
  }

  /** For an existing assignment, a lookup that fails or finds no header
      holding a listed seat is rolled back before any draw. */
  lemma LookupFailureRollsBack(t: Tables, req: GenerateRequest, alloc: Allocator, faults: Faults)
    requires exists a :: a in t.assignments && IsFor(a, req.flightNumber, req.date)
    requires faults.count.None? && |req.seatsToChange| > 0
    requires faults.lookup.Some? || |GetByFilter(t, LookupFilter(req))| == 0
    ensures Workflow(t, req, alloc, faults) == Run(Failed(NoMatch), t, RolledBack)
  {
  }

  /** A failed draw for a seat change returns the allocator's error and
      leaves the transaction open, after the lookup found the one
      assignment `a` and passed it all the seats `a` holds. */
  lemma ReplaceGenerationFailureLeavesTxOpen(t: Tables, req: GenerateRequest, alloc: Allocator, faults: Faults,
                                              a: AssignmentRow)
    requires UniqueFlightDate(t.assignments)
    requires a in t.assignments && Selected(a, t.seats, LookupFilter(req))
    requires faults.count.None? && faults.lookup.None? && |req.seatsToChange| > 0
    requires alloc(req.aircraft, |req.seatsToChange|, SeatCodes(SeatsOf(t.seats, a.id))).Err?
    ensures var e := alloc(req.aircraft, |req.seatsToChange|, SeatCodes(SeatsOf(t.seats, a.id))).error;
            Workflow(t, req, alloc, faults) == Run(Failed(GenerateFailed + e), t, Open)
  {
    QueryIsTheSelected(t, LookupFilter(req), a);
  }

  /** For an existing assignment, a failed seat delete is rolled back and
      reported with the store's error, after the draw succeeded. */
  lemma DeleteFailureRollsBack(t: Tables, req: GenerateRequest, alloc: Allocator, faults: Faults, a: AssignmentRow)
    requires UniqueFlightDate(t.assignments)
    requires a in t.assignments && Selected(a, t.seats, LookupFilter(req))
    requires faults.count.None? && faults.lookup.None? && |req.seatsToChange| > 0
    requires alloc(req.aircraft, |req.seatsToChange|, SeatCodes(SeatsOf(t.seats, a.id))).Ok?
    requires faults.delete.Some?
    ensures Workflow(t, req, alloc, faults) == Run(Failed(DeleteFailed + faults.delete.value), t, RolledBack)
  {
    QueryIsTheSelected(t, LookupFilter(req), a);
  }

  /** For an existing assignment, a failed insert of the replacement seats
      is rolled back and reported with the store's error; the seats already
      deleted come back with the rollback. */
  lemma RecreateFailureRollsBack(t: Tables, req: GenerateRequest, alloc: Allocator, faults: Faults, a: AssignmentRow)
    requires UniqueFlightDate(t.assignments)
    requires a in t.assignments && Selected(a, t.seats, LookupFilter(req))
    requires faults.count.None? && faults.lookup.None? && faults.delete.None? && |req.seatsToChange| > 0
    requires alloc(req.aircraft, |req.seatsToChange|, SeatCodes(SeatsOf(t.seats, a.id))).Ok?
    requires var drawn := alloc(req.aircraft, |req.seatsToChange|, SeatCodes(SeatsOf(t.seats, a.id))).value;
             InsertSeatsIn(t.(seats := RemoveSeats(t.seats, a.id, req.seatsToChange)), SeatRowsFor(a.id, drawn),
                           faults.insertSeats).Err?
    ensures var drawn := alloc(req.aircraft, |req.seatsToChange|, SeatCodes(SeatsOf(t.seats, a.id))).value;
            var e := InsertSeatsIn(t.(seats := RemoveSeats(t.seats, a.id, req.seatsToChange)),
                                   SeatRowsFor(a.id, drawn), faults.insertSeats).error;
            Workflow(t, req, alloc, faults) == Run(Failed(RecreateFailed + e), t, RolledBack)
  {
    assert StageOf(t, req, alloc, faults) == ReplaceStage(t, req, alloc, faults);
    QueryIsTheSelected(t, LookupFilter(req), a);
    assert GetByFilterIn(t, LookupFilter(req), faults.lookup).value[0] == Populate(a, t.seats);
    DeleteHitsTheAssignment(t, LookupFilter(req), a);
  }

  /** For a new assignment, a failed insert of its seat rows is rolled back
      together with the header and reported with the store's error. */
  lemma SeatInsertFailureRollsBack(t: Tables, req: GenerateRequest, alloc: Allocator, faults: Faults)
    requires Count(t.assignments, req.flightNumber, req.date) == 0 && faults.count.None? && faults.create.None?
    requires alloc(req.aircraft, NewAssignmentSeats, []).Ok?
    requires var drawn := alloc(req.aircraft, NewAssignmentSeats, []).value;
             InsertSeatsIn(Create(t, Header(req)).value, SeatRowsFor(t.nextId, drawn), faults.insertSeats).Err?
    ensures var drawn := alloc(req.aircraft, NewAssignmentSeats, []).value;
            var e := InsertSeatsIn(Create(t, Header(req)).value, SeatRowsFor(t.nextId, drawn), faults.insertSeats).error;
            Workflow(t, req, alloc, faults) == Run(Failed(SeatsFailed + e), t, RolledBack)
  {
  }

  // Flight JT692 on 26-07-25, assignment 1, holding 3B, 7C and 14D.
  const ExampleHeader := AssignmentRow(1, "ApArki", "270123", "JT692", "26-07-25", Airbus320)
  const ExampleHeld := [FlightSeatAssignment(1, "3B"), FlightSeatAssignment(1, "7C"), FlightSeatAssignment(1, "14D")]
  const ExampleAfter := [FlightSeatAssignment(1, "3B"), FlightSeatAssignment(1, "7C"), FlightSeatAssignment(1, "12A")]
  const ExampleChange := GenerateRequest("ApArki", "270123", "JT692", "26-07-25", Airbus320, ["14D"])

  /** The lookup finds assignment 1 with all three of its seat rows. */
  lemma ExampleLookup()
    ensures GetByFilter(Tables([ExampleHeader], ExampleHeld, 2), LookupFilter(ExampleChange))
            == [Populate(ExampleHeader, ExampleHeld)]
    ensures SeatCodes(Populate(ExampleHeader, ExampleHeld).seatAssignments) == ["3B", "7C", "14D"]
  {
    var held := ExampleHeld;
    assert held[2] in held;
    assert Selected(ExampleHeader, held, LookupFilter(ExampleChange));
    assert SeatsOf(held, 1) == held;
  }

  /** Deleting 14D from assignment 1 leaves 3B and 7C. */
  lemma ExampleDelete()
    ensures DeleteSeats(Tables([ExampleHeader], ExampleHeld, 2), LookupFilter(ExampleChange))
            == Ok((1, Tables([ExampleHeader], ExampleHeld[..2], 2)))
  {
    assert RemoveSeats(ExampleHeld, 1, ["14D"]) == ExampleHeld[..2];
  }

  /** Inserting 12A after them gives the final seat rows. */
  lemma ExampleInsert()
    ensures InsertSeatsIn(Tables([ExampleHeader], ExampleHeld[..2], 2), SeatRowsFor(1, ["12A"]), None)
            == Ok(Tables([ExampleHeader], ExampleAfter, 2))
  {
    assert SeatRowsFor(1, ["12A"]) == [FlightSeatAssignment(1, "12A")];
    assert ExampleHeld[..2] + [FlightSeatAssignment(1, "12A")] == ExampleAfter;
    assert Distinct(ExampleAfter);
  }

  /** Changing 14D with 12A drawn reaches the commit with 14D replaced. */
  lemma SeatChangeReachesCommit(alloc: Allocator, t: Tables, req: GenerateRequest)
    requires t == Tables([ExampleHeader], ExampleHeld, 2) && req == ExampleChange
    requires alloc(Airbus320, 1, ["3B", "7C", "14D"]) == Ok(["12A"])
    ensures Workflow(t, req, alloc, NoFaults) == Finish(t, Tables([ExampleHeader], ExampleAfter, 2), req, NoFaults)
  {
    var f := LookupFilter(req);
    assert Count(t.assignments, req.flightNumber, req.date) == 1;
    assert StageOf(t, req, alloc, NoFaults) == ReplaceStage(t, req, alloc, NoFaults);
    ExampleLookup();
    assert GetByFilterIn(t, f, None) == Ok([Populate(ExampleHeader, ExampleHeld)]);
    ExampleDelete();
    assert DeleteSeatsIn(t, f, None) == Ok((1, Tables([ExampleHeader], ExampleHeld[..2], 2)));
    ExampleInsert();
  }

  /** The change above returns the assignment holding 3B, 7C and 12A, in
      that order. */
  lemma SeatChangeExample(alloc: Allocator, t: Tables, req: GenerateRequest)
    requires t == Tables([ExampleHeader], ExampleHeld, 2) && req == ExampleChange
    requires alloc(Airbus320, 1, ["3B", "7C", "14D"]) == Ok(["12A"])
    ensures var run := Workflow(t, req, alloc, NoFaults);
            && run.outcome.Assigned?
            && SeatCodes(run.outcome.assignment.seatAssignments) == ["3B", "7C", "12A"]
  {
    SeatChangeReachesCommit(alloc, t, req);
    ExampleReadBack();
  }

  /** Reading the changed assignment back gives its three seat rows. */
  lemma ExampleReadBack()
    ensures GetByFilter(Tables([ExampleHeader], ExampleAfter, 2), RereadFilter(ExampleChange))
            == [Populate(ExampleHeader, ExampleAfter)]
    ensures SeatCodes(Populate(ExampleHeader, ExampleAfter).seatAssignments) == ["3B", "7C", "12A"]
  {
    var after := ExampleAfter;
    assert after[0] in after;
    assert Selected(ExampleHeader, after, RereadFilter(ExampleChange));
    assert SeatsOf(after, 1) == after;
  }

  class FlightUsecase {
    const repo: FlightRepository
    const seatGen: Allocator

    constructor (repo: FlightRepository, seatGen: Allocator)
      ensures this.repo == repo && this.seatGen == seatGen
    {
      this.repo := repo;
      this.seatGen := seatGen;
    }

    /** Is there a committed assignment for the flight and date? A failing
        count reads as "no". */
    function CheckFlightExists(req: CheckFlightRequest, fault: Option<string>): (found: bool)
      reads repo.db
      ensures found <==> fault.None? && exists a :: a in repo.db.tables.assignments && IsFor(a, req.flightNumber, req.date)
    {
      repo.CountByFlightAndDate(req.flightNumber, req.date, fault) > 0
    }

    /** The writes for a fresh assignment, inside the open transaction `tx`.
        An error is returned with `tx` rolled back, except after a failed
        draw, which leaves it open. */
    method CreateInTx(tx: Tx, req: GenerateRequest, faults: Faults) returns (err: Option<string>)
      requires tx.status == Open
      modifies tx
      ensures var st := CreateStage(old(tx.pending), req, seatGen, faults);
              && (err.Some? <==> st.Abandon?)
              && (st.Abandon? ==> err == Some(st.message) && tx.status == st.status)
              && (st.Ready? ==> tx.status == Open && tx.pending == st.pending)
    {
      var generated := seatGen(req.aircraft, NewAssignmentSeats, []);
      if generated.Err? {
        // Returns with the transaction still open.
        return Some(GenerateFailed + generated.error);
      }
      var created := repo.CreateTx(tx, Header(req), faults.create);
      if created.Err? {
        tx.Rollback();
        return Some(CreateFailed + created.error);
      }
      var rows := BuildSeatAssignments(created.value.id, generated.value);
      var inserted := repo.BulkCreateSeatAssignmentsTx(tx, rows, faults.insertSeats);
      if inserted.Err? {
        tx.Rollback();
        return Some(SeatsFailed + inserted.error);
      }
      err := None;
    }

    /** The writes for a seat change, inside the open transaction `tx`, with
        the same convention for errors. */
    method ReplaceInTx(tx: Tx, req: GenerateRequest, faults: Faults) returns (err: Option<string>)
      requires tx.status == Open
      modifies tx
      ensures var st := ReplaceStage(old(tx.pending), req, seatGen, faults);
              && (err.Some? <==> st.Abandon?)
              && (st.Abandon? ==> err == Some(st.message) && tx.status == st.status)
              && (st.Ready? ==> tx.status == Open && tx.pending == st.pending)
    {
      if |req.seatsToChange| == 0 {
        tx.Rollback();
        return Some(AlreadyExists);
      }
      var filter := LookupFilter(req);
      var found := repo.GetByFilterTx(tx, filter, faults.lookup);
      if found.Err? || |found.value| == 0 {
        tx.Rollback();
        return Some(NoMatch);
      }
      var held := ExtractSeats(found.value[0].seatAssignments);
      var generated := seatGen(req.aircraft, |req.seatsToChange|, held);
      if generated.Err? {
        // Returns with the transaction still open.
        return Some(GenerateFailed + generated.error);
      }
      var deleted := repo.DeleteSeatsByFilterTx(tx, filter, faults.delete);
      if deleted.Err? {
        tx.Rollback();
        return Some(DeleteFailed + deleted.error);
      }
      var rows := BuildSeatAssignments(found.value[0].id, generated.value);
      var inserted := repo.BulkCreateSeatAssignmentsTx(tx, rows, faults.insertSeats);
      if inserted.Err? {
        tx.Rollback();
        return Some(RecreateFailed + inserted.error);
      }
      err := None;
    }

    /** Runs the workflow in one transaction: count, then the writes of one
        branch, then commit and read back. The ghost `status` tells how the
        transaction was left. */
    method GenerateAndAssignSeats(req: GenerateRequest, faults: Faults)
      returns (out: Outcome, ghost status: TxStatus)
      modifies repo.db
      ensures var run := Workflow(old(repo.db.tables), req, seatGen, faults);
              out == run.outcome && repo.db.tables == run.tables && status == run.status
    {
      var tx := repo.BeginTx();
      var count := repo.CountByFlightAndDateTx(tx, req.flightNumber, req.date, faults.count);
      var err: Option<string>;
      if count == 0 {
        err := CreateInTx(tx, req, faults);
      } else {
        err := ReplaceInTx(tx, req, faults);
      }
      if err.Some? {
        return Failed(err.value), tx.status;
      }
      var committed := tx.Commit(faults.commit);
      if committed.Err? {
        tx.Rollback();
        return Failed(CommitFailed + committed.error), tx.status;
      }
      var current := repo.GetByFilter(RereadFilter(req), faults.reread);
      if current.Err? || |current.value| == 0 {
        // Indexing the empty result crashes.
        out := Panic(IndexOutOfRange);
      } else {
        out := Assigned(current.value[0]);
      }
      status := tx.status;
    }
  }
}
