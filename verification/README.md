# Seat voucher: a Dafny model of the assignment backend

The seat-voucher backend gives an airline crew member seat vouchers for a
flight. A request names the crew member, the flight number, the date and
the aircraft type. The first request for a flight and date creates an
assignment with three randomly drawn seats. A later request for the same
flight and date may list seats to change; the listed seats of the existing
assignment are then replaced by fresh draws. Everything happens in one
database transaction, followed by a read-back of the assignment.

This project models that core in Dafny:

- `Model` (`flight_model.dfy`): the records. These are the aircraft types and
  layouts, an assignment header with its seat rows, and the request and
  filter shapes.
- `Utils` (`common_utils.dfy`): `ExtractSeats`, the projection of seat rows
  onto their seat codes. It is a loop proved against the function
  `SeatCodes`.
- `Handler` (`flight_handler.dfy`): `splitSeats`, Go's `strings.Split` on
  commas with the empty-string special case. It comes with the round trip
  in both directions.
- `Validation` (`validation.dfy`): the aircraft-type validator and the
  flight-number validator. The regular expression `^[A-Z]{2}\d{1,4}$` is run
  by a small matcher over repeated character classes. The matcher is proved
  to accept exactly two ASCII capitals followed by one to four ASCII digits.
- `Service` (`seat_allocator.dfy`): the seat allocator's bounded draw loop
  over a layout, as an imperative method.
  - The random source is an arbitrary choice (`:|`): every row in range and
    every letter may come up.
  - The method is proved to terminate within 1000 draws and to be
    all-or-nothing.
  - On success it returns exactly `count` distinct codes from the layout.
  - It always fails when `count` exceeds 1000 or the layout's capacity.
- `Persistent` (`flight_store.dfy`): the store.
  - Two in-memory tables: assignment headers, and seat rows keyed by
    (assignment id, seat).
  - The repository's queries and writes, following their WHERE/JOIN
    clauses.
  - The two unique indexes of the migration, as the invariant `Valid`.
  - A `Database` class holding the committed tables.
  - A `Tx` class with a pending copy and a status (`Open`, `Committed`,
    `RolledBack`). A commit publishes the pending tables; a rollback drops
    them.
  - A `FlightRepository` class whose methods update the transaction in
    place.
- `Usecase` (`flight_usecase.dfy`): `CheckFlightExists` and
  `GenerateAndAssignSeats`.
  - The workflow is specified by pure functions:
    - `CreateStage` and `ReplaceStage` run the writes of each branch up to
      the commit.
    - `Finish` is the commit and the read-back.
    - `Workflow` is the whole run.
  - The class `FlightUsecase` runs the same steps against the repository
    and a transaction object. Its method is proved to leave the database,
    the outcome and the transaction status exactly as `Workflow` says.

Storage-engine failures (I/O errors, locking) cannot be predicted from the
tables. Each repository call of the workflow therefore takes an
`Option<string>` fault, collected in `Faults`, and `NoFaults` is the
all-clear run. Constraint violations come from the tables themselves: the
unique (flight number, date) index and the unique (assignment id, seat)
index. The allocator is a function parameter with the signature the
workflow uses: aircraft, count, and the seats already held.

Where the code and the intended behaviour part ways, the model follows the
code:

- **Seat filter.** The seat filter of the lookup is an `IN` on the joined
  seat rows. An assignment is found when it holds *any* listed seat, not all
  of them, and the preload then returns *all* its seat rows.
- **Allocator signature.** The allocator interface and its implementation
  take `(aircraft, count)`, but the workflow calls the allocator with a
  third argument, the list of held seats. `Service.GenerateSeats` models the
  implementation as written and makes no claim about avoiding held seats.
  The workflow's allocator is a parameter taking the three arguments.
- **Allocation failure.** On either branch, a failed draw returns without
  a rollback, which leaves the transaction open (`status == Open`).
- **Ignored errors.** The count query's error is dropped, so a failing
  count reads as zero and sends a request down the create branch. The
  read-back after the commit ignores its error and indexes element 0
  unguarded; an empty or failed read-back is the outcome `Panic`.
- **Seat count on a change.** A seat change keeps the number of seats held
  only under conditions the code does not check. The listed seats must be
  distinct and all held. The drawn seats must be as many, distinct, and not
  already held. See `Usecase.ReplaceKeepsSeatCount`.
- **Seats passed to the allocator.** In the seat-change unit test, the
  mocked lookup returns only the listed seat (14D), and the allocator is
  expected with `["14D"]`. The modelled store preloads every seat row of
  the assignment, so in `Usecase.SeatChangeExample` the allocator is asked
  with `["3B", "7C", "14D"]`.
- **Inferred layout type.** `AircraftLayout` (rows `StartRow..EndRow`, seat
  letters `Seats`) is inferred from its uses in the allocator. The Go file
  that declares it is not part of this model.
- **Request type.** The request type in `backend/internal/dto/flight_dto.go`
  lacks `SeatsToChange`, and the repository interface lacks the transaction
  methods. The model follows their use in the workflow.

## Model

| member | source | states |
|---|---|---|
| Utils.SeatCodes | backend/internal/utils/common_utils.go:5-11 | the codes have as many entries as the rows, and entry k is the seat of row k |
| Utils.ExtractSeats | backend/internal/utils/common_utils.go:5-11 | the loop returns one code per row, in row order, nothing added or dropped (equal to `SeatCodes`); an empty input gives an empty list |
| Utils.ExtractSeatsExample | backend/internal/usecase/flight_usecase_test.go:35-37 | rows 3B, 7C, 14D extract to ["3B", "7C", "14D"] |
| Handler.Split | backend/internal/api/handler/flight_handler.go:60 | `strings.Split` on "," always yields at least one piece |
| Handler.SplitSeats | backend/internal/api/handler/flight_handler.go:56-61 | "" gives no seats; otherwise joining the pieces with "," gives the input back, there is one piece more than there are commas (empty pieces kept), and no piece contains a comma |
| Handler.JoinSplit | backend/internal/api/handler/flight_handler.go:60 | joining the pieces of any string with "," gives the string back |
| Handler.SplitCount | backend/internal/api/handler/flight_handler.go:60 | the number of pieces is the number of commas plus one |
| Handler.SplitCommaFree | backend/internal/api/handler/flight_handler.go:60 | no piece contains a comma |
| Handler.SplitJoin | backend/internal/api/handler/flight_handler.go:60 | splitting the comma-join of comma-free pieces gives those pieces back (the inverse direction) |
| Handler.SplitCommaFreePiece | backend/internal/api/handler/flight_handler.go:60 | a string without commas is a single piece |
| Handler.SplitPrefix | backend/internal/api/handler/flight_handler.go:60 | a comma-free prefix before a comma becomes the first piece, and the rest is split on its own |
| Handler.SplitSeatsExample | backend/internal/api/handler/flight_handler_test.go:66-88 | the seat string "3A,5C,8F" becomes ["3A", "5C", "8F"] |
| Validation.AircraftEnumValidator | backend/internal/validation/validation.go:18-26 | accepts a string exactly when it is one of "ATR", "Airbus 320", "Boeing 737 Max" |
| Validation.AircraftEnumRejectsOthers | backend/internal/api/handler/flight_handler_test.go:102-117 | "INVALID" is rejected; the comparison is exact and case-sensitive ("atr", "Airbus320" rejected) |
| Validation.MatchLastPiece | backend/internal/validation/validation.go:28 | a final repeated class `c{min,max}` matches exactly the strings of that class whose length lies within the bounds |
| Validation.FlightNumberPatternCorrect | backend/internal/validation/validation.go:28 | the pattern `^[A-Z]{2}\d{1,4}$` matches a string if and only if it is two ASCII capitals followed by one to four ASCII digits, with nothing before or after |
| Validation.FlightNumberValidator | backend/internal/validation/validation.go:30-34 | the validator accepts a field exactly when it is two ASCII capitals followed by one to four ASCII digits (so 3 to 6 characters) |
| Validation.FlightNumberExamples | backend/internal/api/handler/flight_handler_test.go:136-156 | "JT692" is accepted; "ID12345", "jt692" and "JT" are rejected |
| Service.Digits | backend/internal/service/seat_allocator_impl.go:38 | `%d` of a non-negative row: at least one decimal digit, denoting the row's value, with no leading zero except for 0 itself |
| Service.SeatCodeParts | backend/internal/service/seat_allocator_impl.go:38 | a seat code ends with the letter, and what precedes it is the row in decimal: its digits denote the row, with a '-' first for a negative row |
| Service.GenerateSeats | backend/internal/service/seat_allocator_impl.go:27-49 | unknown aircraft gives "unknown aircraft" with no draws. At most 1000 draws. Success gives exactly `count` pairwise distinct codes, each a row of the layout in decimal followed by one of its letters. Failure is "not enough available seats" after all 1000 draws, never a partial list. Count 0 gives an empty list with no draws. A count above 1000 or above rows × letters always fails |
| Service.WithinCapacity | backend/internal/service/seat_allocator_impl.go:36-42 | a layout yields no more distinct codes than rows × letters, since each draw is one (row, letter) pair |
| Service.DistinctWithin | backend/internal/service/seat_allocator_impl.go:39-42 | a duplicate-free list drawn from a set is no longer than the set |
| Persistent.Valid | backend/internal/migration/migrate.go:20-21 | the store invariant implies the two unique indexes: no two headers for the same flight and date, and every seat row owned by a header already issued an id |
| Persistent.Populate | backend/infrastructure/persistent/flight_sqllite.go:44 | the preloaded assignment carries the header's fields and exactly the seat rows that carry its id |
| Persistent.SelectedMeansJoin | backend/infrastructure/persistent/flight_sqllite.go:44-50 | a header is selected exactly when it is for the flight and date and one of its preloaded seat rows passes the seat filter (any row when the list is empty, a listed seat otherwise); a selected header never comes back without seats |
| Persistent.Count | backend/infrastructure/persistent/flight_sqllite.go:27-33 | the count of headers for (flight, date) is positive exactly when such a header exists, and is at most the table size |
| Persistent.CountAtMostOne | backend/internal/migration/migrate.go:20 | under the unique (flight number, date) index the count is at most one |
| Persistent.SeatsOf | backend/infrastructure/persistent/flight_sqllite.go:44 | the preloaded seat rows of an assignment are exactly the seat rows carrying its id, in table order |
| Persistent.SeatsOfAppend | backend/infrastructure/persistent/flight_sqllite.go:44 | selecting an assignment's seat rows distributes over appending rows to the table |
| Persistent.Query | backend/infrastructure/persistent/flight_sqllite.go:42-55 | the result holds, populated, exactly the headers for the flight and date that the inner join keeps: those with a seat row, and with a seat row among the listed seats when the list is non-empty |
| Persistent.QueryDistinct | backend/infrastructure/persistent/flight_sqllite.go:52-53 | grouping by header: no assignment appears twice |
| Persistent.GetByFilterAtMostOne | backend/internal/migration/migrate.go:20 | under the unique index a query returns at most one assignment |
| Persistent.QueryIsTheSelected | backend/infrastructure/persistent/flight_sqllite.go:39-62 | under the unique index, when a header is selected, the query returns exactly that header, populated |
| Persistent.FirstFor | backend/infrastructure/persistent/flight_sqllite.go:66-69 | `First` finds nothing exactly when no header is for the flight and date; otherwise it returns such a header |
| Persistent.FirstForLowestId | backend/infrastructure/persistent/flight_sqllite.go:66-69 | with ids increasing along the table (part of the store invariant), the header found is the one with the lowest id, which is the primary-key order `First` uses |
| Persistent.GetByFilterAnswers | backend/infrastructure/persistent/flight_sqllite.go:39-62 | the query answers the filter: every selected header is returned, populated; nothing else is; none twice when ids increase; at most one under the unique index |
| Persistent.OnlyMatch | backend/internal/migration/migrate.go:20 | under the unique index two headers for the same flight and date are the same header |
| Persistent.Create | backend/infrastructure/persistent/flight_sqllite.go:84-89 | the insert succeeds exactly when no header exists for the flight and date; otherwise the unique-index error. On success it appends the header under the next id and keeps the store invariant |
| Persistent.InsertSeats | backend/infrastructure/persistent/flight_sqllite.go:77-82 | an empty list changes nothing; otherwise every row is appended, and it fails with the unique-index error exactly when a (assignment, seat) pair would repeat; the store invariant is kept |
| Persistent.RemoveSeats | backend/infrastructure/persistent/flight_sqllite.go:71-72 | keeps exactly the seat rows that are not (this assignment, a listed seat), and keeps them duplicate-free |
| Persistent.DeleteSeats | backend/infrastructure/persistent/flight_sqllite.go:64-75 | with no header for the flight and date: "record not found" and nothing deleted; otherwise exactly the listed seats of the first such header are removed, the headers stay, the returned number is how many rows went, and the store invariant is kept |
| Persistent.CountIn | backend/infrastructure/persistent/flight_sqllite.go:27-33 | a failing count reads as zero; otherwise the count is positive exactly when a header exists |
| Persistent.GetByFilterIn | backend/infrastructure/persistent/flight_sqllite.go:39-62 | fails exactly when the engine reports an error, with the prefix "failed to query flight assignments in transaction: "; on success the result answers the filter (every selected header, populated, and nothing else; duplicate-free; at most one under the unique index) |
| Persistent.CreateIn | backend/infrastructure/persistent/flight_sqllite.go:84-89 | succeeds exactly when the engine reports no error and no header exists for the flight and date; the engine's error, else the unique-index error; on success the header is appended under the next id, seat rows untouched, the next id advanced, and the store invariant kept |
| Persistent.InsertSeatsIn | backend/infrastructure/persistent/flight_sqllite.go:77-82 | an empty list succeeds with nothing changed; otherwise succeeds exactly when the engine reports no error and no (assignment, seat) pair would repeat; the engine's error, else the unique-index error; on success a seat row is present exactly when it was before or is in the list, headers and next id unchanged, and the invariant kept for owned rows |
| Persistent.DeleteSeatsIn | backend/infrastructure/persistent/flight_sqllite.go:64-75 | succeeds exactly when the engine reports no error and a header exists for the flight and date; the engine's error, else "record not found"; on success exactly the listed seats of the first such header are gone, every other row stays, headers and next id are unchanged, the count returned is the number of rows removed, and the invariant is kept |
| Persistent.Tx.Begin | backend/infrastructure/persistent/flight_sqllite.go:19-21 | a new transaction on the database starts open, with the committed tables as its pending copy |
| Persistent.Tx.Commit | backend/internal/usecase/flight_usecase_impl.go:128 | an open transaction without engine error publishes its pending tables and becomes committed. A finished transaction refuses. An engine error leaves the committed tables and the open status as they were |
| Persistent.Tx.Rollback | backend/internal/usecase/flight_usecase_impl.go:52 | an open transaction becomes rolled back and the committed tables are untouched; a finished one stays as it is |
| Persistent.FlightRepository.BeginTx | backend/infrastructure/persistent/flight_sqllite.go:19-21 | a new open transaction on the database whose pending tables are the committed ones |
| Persistent.FlightRepository.CountByFlightAndDate | backend/infrastructure/persistent/flight_sqllite.go:23-25 | positive exactly when no error and a committed header exists for the flight and date |
| Persistent.FlightRepository.CountByFlightAndDateTx | backend/infrastructure/persistent/flight_sqllite.go:27-33 | positive exactly when the transaction is open, there is no error, and its pending tables have a header for the flight and date |
| Persistent.FlightRepository.GetByFilter | backend/infrastructure/persistent/flight_sqllite.go:35-37 | fails exactly when the engine reports an error; on success the committed tables' answer to the filter: every selected header, populated, and nothing else, no more than there are headers, duplicate-free when ids increase |
| Persistent.FlightRepository.GetByFilterTx | backend/infrastructure/persistent/flight_sqllite.go:39-62 | fails exactly when the transaction is finished ("transaction has already been committed or rolled back", prefixed) or the engine reports an error (prefixed); on success the pending tables' answer to the filter, as for `GetByFilter` |
| Persistent.FlightRepository.DeleteSeatsByFilterTx | backend/infrastructure/persistent/flight_sqllite.go:64-75 | on an open transaction the pending tables become the delete's result, or stay on error; the status is unchanged |
| Persistent.FlightRepository.BulkCreateSeatAssignmentsTx | backend/infrastructure/persistent/flight_sqllite.go:77-82 | an empty list is a success without change; otherwise, on an open transaction, the pending tables become the insert's result, or stay on error |
| Persistent.FlightRepository.CreateTx | backend/infrastructure/persistent/flight_sqllite.go:84-89 | on success returns the header with its new id and the pending tables gain it; on error nothing changes |
| Usecase.SeatRowsFor | backend/internal/usecase/flight_usecase_impl.go:57-63 | one row per seat, each owned by the given assignment, and a row is present exactly when its seat is one of the seats |
| Usecase.SeatRowsRoundTrip | backend/internal/usecase/flight_usecase_impl.go:57-63 | extracting the seat codes of the built rows gives the seats back, in order |
| Usecase.SeatRowsDistinct | backend/internal/usecase/flight_usecase_impl.go:57-63 | the rows are duplicate-free exactly when the seats are |
| Usecase.BuildSeatAssignments | backend/internal/usecase/flight_usecase_impl.go:110-116 | the append loop builds exactly `SeatRowsFor(id, seats)` |
| Usecase.Finish | backend/internal/usecase/flight_usecase_impl.go:127-141 | a commit error rolls back with "failed to commit transaction: ..." and nothing published. Otherwise the pending tables are committed and the outcome is not an error. An assignment returned is element 0 of the re-read, and with a selectable header and no errors one is returned |
| Usecase.CreateStage | backend/internal/usecase/flight_usecase_impl.go:34-71 | the create branch never commits by itself; it leaves the transaction open only when the draw of three seats with no held seats failed; it is ready only when no header existed for the flight and date, and then exactly the request's header under the next id has been added |
| Usecase.ReplaceStage | backend/internal/usecase/flight_usecase_impl.go:72-124 | an empty seat list gives "already exists and no seats to change", rolled back; the branch never commits by itself; it leaves the transaction open only when the lookup found an assignment and the draw for it failed; when ready the headers and the next id are unchanged |
| Usecase.StageOf | backend/internal/usecase/flight_usecase_impl.go:31-34 | the count decides the branch: the writes never commit by themselves; when ready with no header for the flight and date, exactly the request's header was added; when one existed, headers and next id are unchanged |
| Usecase.Workflow | backend/internal/usecase/flight_usecase_impl.go:29-142 | the transaction is committed exactly when the outcome is not an error; when not committed the database is untouched; when committed a header exists for the flight and date |
| Usecase.CreateReachesCommit | backend/internal/usecase/flight_usecase_impl.go:34-71 | with no errors, a fresh request with distinct seats drawn reaches the commit with exactly its header and seat rows added, and the store invariant holds |
| Usecase.CreatedSeats | backend/internal/usecase/flight_usecase_impl.go:57-66 | the new header owns exactly the rows just inserted, and populated it carries the request's fields and those rows |
| Usecase.CreatedReadBack | backend/internal/usecase/flight_usecase_impl.go:133-141 | reading back a freshly created assignment returns that header, populated, and nothing else |
| Usecase.CreateRoundTrip | backend/internal/usecase/flight_usecase_impl.go:29-142 | a fresh request with no errors commits and returns the header under the next id with the request's crew, flight, date and aircraft, and one seat row per drawn seat in draw order. Its seat codes are the drawn seats, and the flight and date then have exactly one assignment |
| Usecase.RepeatRequestRejected | backend/internal/usecase/flight_usecase_impl.go:73-78 | an existing assignment and no seats to change: "already exists" error, rolled back, database untouched, whatever the allocator |
| Usecase.SecondAssignmentRejected | backend/internal/usecase/flight_usecase_impl.go:73-78 | after a committed run, a second request for the same flight and date without seats to change is refused |
| Usecase.LookupFindsTheAssignment | backend/internal/usecase/flight_usecase_impl.go:87-95 | under the unique index the lookup's first result is the flight's one assignment, populated |
| Usecase.DeleteHitsTheAssignment | backend/internal/usecase/flight_usecase_impl.go:103 | under the unique index the delete succeeds and removes the listed seats of that same assignment |
| Usecase.ReplaceReachesCommit | backend/internal/usecase/flight_usecase_impl.go:72-124 | a committed seat change had a non-empty list. The allocator was asked for that many seats and given every seat the assignment held, and succeeded. The pending tables were the assignment's listed seats removed and the drawn seats added |
| Usecase.WorkflowPreservesValid | backend/internal/migration/migrate.go:20-21 | every run keeps the store invariant: one header per flight and date, no (assignment, seat) row twice, increasing ids, every seat row owned |
| Usecase.ReplaceEffect | backend/internal/usecase/flight_usecase_impl.go:80-124 | a committed change leaves headers and ids as they were. A seat row is present afterwards exactly when it was there and is not a listed seat of the assignment, or it is a drawn seat of the assignment. The returned assignment is the one changed |
| Usecase.HeldAfterReplace | backend/internal/usecase/flight_usecase_impl.go:103-124 | the seats held afterwards are those held before minus the listed ones plus the drawn ones |
| Usecase.ReplaceKeepsSeatCount | backend/internal/usecase/flight_usecase_impl.go:95-124 | with distinct listed seats all held, and as many distinct drawn seats none already held, the number of seats held is unchanged |
| Usecase.CreateCommitted | backend/internal/usecase/flight_usecase_impl.go:34-71 | a fresh request that commits had a successful draw and committed its header and seat rows, keeping the store invariant |
| Usecase.NoPanic | backend/internal/usecase/flight_usecase_impl.go:133-141 | with the re-read succeeding and an allocator returning as many seats as asked, indexing element 0 never fails |
| Usecase.GenerationFailureLeavesTxOpen | backend/internal/usecase/flight_usecase_impl.go:35-39 | for a fresh request, a failed draw (three seats, no held seats) returns "failed to generate seats: ..." with the transaction left open and nothing committed |
| Usecase.CreateFailureRollsBack | backend/internal/usecase/flight_usecase_impl.go:50-55 | a failed header insert rolls back and returns "failed to create assignment in DB: ..." |
| Usecase.LookupFailureRollsBack | backend/internal/usecase/flight_usecase_impl.go:87-92 | a failing or empty lookup rolls back with "no matching assignment found after seat deletion", before any draw |
| Usecase.ReplaceGenerationFailureLeavesTxOpen | backend/internal/usecase/flight_usecase_impl.go:95-100 | for a seat change, a failed draw returns "failed to generate seats: ..." with the transaction left open |
| Usecase.SeatInsertFailureRollsBack | backend/internal/usecase/flight_usecase_impl.go:66-71 | for a fresh request, a failed insert of its seat rows rolls back, header included, and returns "failed to create seat assignments: ..." with the store's error |
| Usecase.DeleteFailureRollsBack | backend/internal/usecase/flight_usecase_impl.go:103-108 | for a seat change whose draw succeeded, a failed delete rolls back and returns "failed to delete seats: ..." with the store's error |
| Usecase.RecreateFailureRollsBack | backend/internal/usecase/flight_usecase_impl.go:119-124 | for a seat change, a failed insert of the drawn seats rolls back, restoring the deleted seats, and returns "failed to re-create seat assignments: ..." with the store's error |
| Usecase.ExampleLookup | backend/internal/usecase/flight_usecase_test.go:98-101 | the lookup for JT692 with 14D finds assignment 1 with its seats 3B, 7C, 14D |
| Usecase.ExampleDelete | backend/internal/usecase/flight_usecase_test.go:102 | deleting 14D leaves 3B and 7C |
| Usecase.ExampleInsert | backend/internal/usecase/flight_usecase_test.go:103 | inserting 12A gives the rows 3B, 7C, 12A |
| Usecase.ExampleReadBack | backend/internal/usecase/flight_usecase_test.go:104-106 | the read-back returns assignment 1 with seats 3B, 7C, 12A |
| Usecase.SeatChangeReachesCommit | backend/internal/usecase/flight_usecase_test.go:70-115 | changing 14D with 12A drawn reaches the commit with 14D replaced by 12A |
| Usecase.SeatChangeExample | backend/internal/usecase/flight_usecase_test.go:70-115 | the change returns the assignment with seat codes 3B, 7C, 12A in that order |
| Usecase.FlightUsecase.CheckFlightExists | backend/internal/usecase/flight_usecase_impl.go:25-27 | true exactly when the count succeeds and a committed assignment exists for the flight and date |
| Usecase.FlightUsecase.CreateInTx | backend/internal/usecase/flight_usecase_impl.go:34-71 | runs the create steps on the open transaction: an error exactly when `CreateStage` abandons, with its message and its transaction status; otherwise still open with the staged tables pending |
| Usecase.FlightUsecase.ReplaceInTx | backend/internal/usecase/flight_usecase_impl.go:72-124 | the same for the seat-change steps and `ReplaceStage` |
| Usecase.FlightUsecase.GenerateAndAssignSeats | backend/internal/usecase/flight_usecase_impl.go:29-142 | the outcome, the committed tables afterwards and the transaction's final status are exactly those of `Workflow` on the tables before |

## Left out

- HTTP plumbing: gin binding, status codes and JSON in the handlers, the
  routes, the CORS and recovery middleware, and `main.go` are framework I/O.
  Of the handler file only `splitSeats` is modelled.
- `NewSeatAllocator` reads the layout file and parses its JSON, panicking on
  failure. The layout table is an input value here (`Service.SeatGenerator`).
- The distribution of `math/rand`: draws are arbitrary choices, and nothing
  probabilistic is claimed.
- `Service.GenerateSeats` requires a layout with at least one row and one
  letter when `count > 0`. On any other layout the Go code panics inside
  `rand.Intn`, and that panic is not modelled.
- `Service.GenerateSeats` takes a natural-number count. In Go a negative
  `count` panics in `make` (`backend/internal/service/seat_allocator_impl.go:32`);
  the workflow only passes 3 or the length of a list.
- gorm and SQLite internals are not modelled:
  - isolation levels;
  - how `Preload` is executed;
  - the `ORDER BY created_at DESC` of the grouped query (a single row per
    assignment under the unique index makes it moot);
  - creation timestamps and seat-row ids;
  - logging;
  - the foreign key's `ON DELETE CASCADE`.
- Concurrency: two concurrent transactions and the engine's locking. The
  model is sequential, and engine errors are the inputs of `Faults`.
- Go integer widths (`uint` ids, `int64` counts) are unbounded here; the
  tables never come near those limits.
- Nil versus empty slices are not distinguished: both are the empty
  sequence.
- The Go workflow is one function. Here its two branches are the methods
  `Usecase.FlightUsecase.CreateInTx` and `Usecase.FlightUsecase.ReplaceInTx`,
  which keep the same steps and order.
- `Persistent.FlightRepository.DeleteSeatsByFilterTx` returns the error
  alone where Go also returns the count 0. The count is dropped by the
  workflow anyway.
- `RegisterValidators` hooks the validators into the framework and is not
  modelled.
- The frontend (React form, network client, the Yup schema that repeats the
  flight-number pattern) is not part of this model.
- The duplicate record types in `backend/internal/model/flight_assignment.go`
  carry no behaviour and are not part of this model.
