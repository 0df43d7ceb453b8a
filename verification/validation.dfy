/** The two request-field validators: aircraft type membership and the
    flight-number pattern `^[A-Z]{2}\d{1,4}$`. */
module Validation {
  import opened Model

  /** The aircraft types the system knows. */
  const AircraftTypes: set<AircraftType> := {ATR, Airbus320, Boeing737Max}

  /** Accepts exactly the three known aircraft types, compared as exact,
      case-sensitive strings. */
  function AircraftEnumValidator(field: string): (ok: bool)
    ensures ok <==> field in AircraftTypes
  {
    match field
    case "ATR" => true
    case "Airbus 320" => true
    case "Boeing 737 Max" => true
    case _ => false
  }

  lemma AircraftEnumRejectsOthers()
    ensures !AircraftEnumValidator("INVALID")
    ensures !AircraftEnumValidator("atr") && !AircraftEnumValidator("Airbus320")
    ensures AircraftEnumValidator("Airbus 320")
  {
  }

  // ---------------------------------------------------------------------
  // A small matcher for the regular expressions used here: a sequence of
  // character classes, each repeated between `min` and `max` times, matched
  // against the whole string (both anchors). RE2 classes are ASCII-only:
  // `[A-Z]` is 'A'..'Z' and `\d` is '0'..'9'.
  // ---------------------------------------------------------------------

  datatype CharClass = UpperAZ | Digit09

  /** `cls{min,max}` */
  datatype Piece = Piece(cls: CharClass, min: nat, max: nat)

  predicate InClass(c: char, cls: CharClass)
  {
    match cls
    case UpperAZ => 'A' <= c <= 'Z'
    case Digit09 => '0' <= c <= '9'
  }

  /** `^[A-Z]{2}\d{1,4}$` */
  const FlightNumberPattern: seq<Piece> := [Piece(UpperAZ, 2, 2), Piece(Digit09, 1, 4)]

  /** Does the whole of `s` match the pieces of `p` in order? */
  function MatchAll(p: seq<Piece>, s: string): bool
    decreases |p|, |s| + 1
  {
    if p == [] then s == []
    else MatchPiece(p[0], p[1..], s, 0)
  }

  /** `taken` characters have already been consumed by `pc`; either stop
      repeating `pc` and match `rest` against `s`, or consume one more. */
  function MatchPiece(pc: Piece, rest: seq<Piece>, s: string, taken: nat): bool
    decreases |rest| + 1, |s|
  {
    (pc.min <= taken && MatchAll(rest, s))
    || (taken < pc.max && s != [] && InClass(s[0], pc.cls) && MatchPiece(pc, rest, s[1..], taken + 1))
  }

  /** Validator of the flight-number field: two capital letters, then one
      to four digits, and nothing else. */
  function FlightNumberValidator(field: string): (ok: bool)
    ensures ok <==> IsFlightNumber(field)
  {
    FlightNumberPatternCorrect(field);
    MatchAll(FlightNumberPattern, field)
  }

  /** The shape of a flight number, stated position by position. */
  predicate IsFlightNumber(s: string)
  {
    && 3 <= |s| <= 6
    && InClass(s[0], UpperAZ) && InClass(s[1], UpperAZ)
    && forall k :: 2 <= k < |s| ==> InClass(s[k], Digit09)
  }

  /** A last piece matches exactly the strings of its class whose length,
      added to what it already took, lies in its bounds. */
  lemma {:induction false} MatchLastPiece(pc: Piece, s: string, taken: nat)
    requires taken <= pc.max
    ensures MatchPiece(pc, [], s, taken) <==>
      (pc.min <= taken + |s| <= pc.max && forall k :: 0 <= k < |s| ==> InClass(s[k], pc.cls))
  {
    if s != [] && taken < pc.max {
      MatchLastPiece(pc, s[1..], taken + 1);
      if taken < pc.max && InClass(s[0], pc.cls) && MatchPiece(pc, [], s[1..], taken + 1) {
        forall k | 0 <= k < |s| ensures InClass(s[k], pc.cls) {
          if k > 0 { assert s[k] == s[1..][k - 1]; }
        }
      }
      if pc.min <= taken + |s| <= pc.max && forall k :: 0 <= k < |s| ==> InClass(s[k], pc.cls) {
        assert forall k :: 0 <= k < |s[1..]| ==> InClass(s[1..][k], pc.cls) by {
          forall k | 0 <= k < |s[1..]| ensures InClass(s[1..][k], pc.cls) {
            assert s[1..][k] == s[k + 1];
          }
        }
      }
    }
  }

  /** The pattern matches exactly the strings of the flight-number shape. */
  lemma {:induction false} FlightNumberPatternCorrect(s: string)
    ensures MatchAll(FlightNumberPattern, s) <==> IsFlightNumber(s)
  {
    var letters := FlightNumberPattern[0];
    var rest := FlightNumberPattern[1..];
    var digits := FlightNumberPattern[1];
    assert rest == [digits] && rest[1..] == [];
    assert MatchAll(rest, s) == MatchPiece(digits, [], s, 0);
    // Two letters are required, and after two the letter piece must stop.
    if |s| >= 2 {
      MatchLastPiece(digits, s[2..], 0);
      assert MatchPiece(letters, rest, s[2..], 2) == MatchAll(rest, s[2..]);
      assert MatchAll(rest, s[2..]) == MatchPiece(digits, [], s[2..], 0);
      assert s[1..][1..] == s[2..];
      if IsFlightNumber(s) {
        assert forall k :: 0 <= k < |s[2..]| ==> InClass(s[2..][k], Digit09) by {
          forall k | 0 <= k < |s[2..]| ensures InClass(s[2..][k], Digit09) {
            assert s[2..][k] == s[k + 2];
          }
        }
        assert MatchPiece(letters, rest, s[1..][1..], 2);
        assert MatchPiece(letters, rest, s[1..], 1);
        assert MatchPiece(letters, rest, s, 0);
      }
      if MatchAll(FlightNumberPattern, s) {
        assert MatchPiece(letters, rest, s, 0);
        assert InClass(s[0], UpperAZ) && MatchPiece(letters, rest, s[1..], 1);
        assert InClass(s[1..][0], UpperAZ) && MatchPiece(letters, rest, s[1..][1..], 2);
        assert MatchPiece(digits, [], s[2..], 0);
        forall k | 2 <= k < |s| ensures InClass(s[k], Digit09) {
          assert s[k] == s[2..][k - 2];
        }
      }
    } else if s != [] {
      // A single letter cannot complete `[A-Z]{2}`.
      assert |s[1..]| == 0;
      assert !MatchPiece(letters, rest, s[1..], 1);
      assert !MatchPiece(letters, rest, s, 0);
      assert MatchAll(FlightNumberPattern, s) == MatchPiece(letters, rest, s, 0);
    }
  }

  /** "JT692" is accepted; five digits ("ID12345"), lower case and a missing
      digit are rejected. */
  lemma FlightNumberExamples()
    ensures FlightNumberValidator("JT692")
    ensures !FlightNumberValidator("ID12345")
    ensures !FlightNumberValidator("jt692")
    ensures !FlightNumberValidator("JT")
  {
  }
}
