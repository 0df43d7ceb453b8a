/** Projection of seat rows onto their seat codes. */
module Utils {
  import opened Model

  /** The seat codes of `rows`, position by position. */
  function SeatCodes(rows: seq<FlightSeatAssignment>): (codes: seq<string>)
    ensures |codes| == |rows|
    ensures forall k :: 0 <= k < |rows| ==> codes[k] == rows[k].seat
  {
    if rows == [] then [] else [rows[0].seat] + SeatCodes(rows[1..])
  }

  /** Collects the seat code of every row, in row order. */
  method ExtractSeats(rows: seq<FlightSeatAssignment>) returns (seats: seq<string>)
    ensures |seats| == |rows|
    ensures forall k :: 0 <= k < |rows| ==> seats[k] == rows[k].seat
    ensures seats == SeatCodes(rows)
  {
    seats := [];
    for i := 0 to |rows|
      invariant |seats| == i
      invariant forall k :: 0 <= k < i ==> seats[k] == rows[k].seat
    {
      seats := seats + [rows[i].seat];
    }
  }

  /** The three rows of the workflow tests project to their codes in order. */
  lemma ExtractSeatsExample()
    ensures SeatCodes([FlightSeatAssignment(0, "3B"), FlightSeatAssignment(0, "7C"),
                       FlightSeatAssignment(0, "14D")]) == ["3B", "7C", "14D"]
  {
  }
}
