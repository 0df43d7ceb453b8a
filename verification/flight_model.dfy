/** The records of the seat-voucher backend: aircraft types and layouts,
    flight assignments with their seat rows, and the request shapes the
    assignment workflow receives. */
module Model {

  /** Aircraft types are plain strings; three of them are named constants. */
  type AircraftType = string

  const ATR: AircraftType := "ATR"
  const Airbus320: AircraftType := "Airbus 320"
  const Boeing737Max: AircraftType := "Boeing 737 Max"

  /** Seat geometry of one aircraft type: rows `startRow..endRow` and the
      column letters, each letter a string. */
  datatype AircraftLayout = AircraftLayout(startRow: int, endRow: int, seats: seq<string>)

  /** One seat row: the owning assignment's id and the seat code, e.g. "14D". */
  datatype FlightSeatAssignment = FlightSeatAssignment(flightAssignmentId: nat, seat: string)

  /** An assignment header together with its seat rows. */
  datatype FlightAssignment = FlightAssignment(
    id: nat,
    crewName: string,
    crewId: string,
    flightNumber: string,
    flightDate: string,
    aircraftType: AircraftType,
    seatAssignments: seq<FlightSeatAssignment>)

  /** The request of the assignment workflow; `seatsToChange` is empty when
      the caller asks for a fresh assignment. */
  datatype GenerateRequest = GenerateRequest(
    crewName: string,
    crewId: string,
    flightNumber: string,
    date: string,
    aircraft: AircraftType,
    seatsToChange: seq<string>)

  /** The request of the existence probe. */
  datatype CheckFlightRequest = CheckFlightRequest(flightNumber: string, date: string)

  /** Filter of the assignment queries; an empty `seats` means no seat filter. */
  datatype FlightFilter = FlightFilter(flightNumber: string, date: string, seats: seq<string>)
}
