/** The seat allocator: draws (row, letter) pairs from an aircraft layout
    until it has the requested number of distinct seat codes or has spent
    its attempt budget. */
module Service {
  import opened Wrappers
  import opened Model

  /** Ceiling on the number of draws of one call. */
  const MaxTries: nat := 1000

  const UnknownAircraft := "unknown aircraft"
  const NotEnoughSeats := "not enough available seats"

  /** The allocator holds the layout table, fixed once built. */
  datatype SeatGenerator = SeatGenerator(layouts: map<AircraftType, AircraftLayout>)

  /** A draw needs a positive bound for both the row and the letter index. */
  predicate Drawable(layout: AircraftLayout)
  {
    layout.startRow <= layout.endRow && |layout.seats| > 0
  }

  /** Number of (row, letter) pairs a layout offers. */
  function Capacity(layout: AircraftLayout): nat
    requires Drawable(layout)
  {
    (layout.endRow - layout.startRow + 1) * |layout.seats|
  }

  // ----- `fmt.Sprintf("%d%s", row, letter)` -----

  /** The character of decimal digit `d`. */
  function DigitChar(d: nat): (c: char)
    requires d < 10
    ensures '0' <= c <= '9' && c as int - '0' as int == d
  {
    "0123456789"[d]
  }

  predicate AllDigits(s: string)
  {
    forall k :: 0 <= k < |s| ==> '0' <= s[k] <= '9'
  }

  /** The number a string of decimal digits denotes, most significant
      digit first. */
  function DigitsValue(s: string): nat
    requires AllDigits(s)
  {
    if s == [] then 0 else DigitsValue(s[..|s| - 1]) * 10 + (s[|s| - 1] as int - '0' as int)
  }

  /** The decimal digits of `n`: at least one, and no leading zero except
      for 0 itself. */
  function Digits(n: nat): (d: string)
    ensures |d| > 0 && AllDigits(d)
    ensures DigitsValue(d) == n
    ensures d[0] == '0' <==> n == 0
  {
    if n < 10 then [DigitChar(n)]
    else
      var d := Digits(n / 10) + [DigitChar(n % 10)];
      assert d[..|d| - 1] == Digits(n / 10);
      d
  }

  /** Decimal rendering of an integer, with a leading '-' when negative. */
  function Decimal(n: int): string
  {
    if n < 0 then "-" + Digits(-n) else Digits(n)
  }

  function SeatCode(row: int, letter: string): string
  {
    Decimal(row) + letter
  }

  /** A seat code is the row in decimal, without leading zeros, followed
      by the letter. */
  lemma SeatCodeParts(row: int, letter: string)
    ensures var code := SeatCode(row, letter);
            && |code| > |letter| && code[|code| - |letter|..] == letter
            && var number := code[..|code| - |letter|];
               if row >= 0 then AllDigits(number) && DigitsValue(number) == row && (number[0] == '0' <==> row == 0)
               else number[0] == '-' && AllDigits(number[1..]) && DigitsValue(number[1..]) == -row
  {
    var number := Decimal(row);
    assert (number + letter)[..|number|] == number;
    assert row < 0 ==> number[1..] == Digits(-row);
  }

  /** `code` is some row of the layout followed by one of its letters. */
  ghost predicate InLayout(code: string, layout: AircraftLayout)
  {
    exists row, i :: layout.startRow <= row <= layout.endRow && 0 <= i < |layout.seats|
                     && code == SeatCode(row, layout.seats[i])
  }

  /** The codes of one row; at most one per letter. */
  ghost function RowCodes(row: int, letters: seq<string>): (codes: set<string>)
    ensures |codes| <= |letters|
    ensures forall i :: 0 <= i < |letters| ==> SeatCode(row, letters[i]) in codes
  {
    if letters == [] then {}
    else {SeatCode(row, letters[0])} + RowCodes(row, letters[1..])
  }

  /** The codes of rows `from..to`; at most one per (row, letter) pair. */
  ghost function Codes(from: int, to: int, letters: seq<string>): (codes: set<string>)
    decreases to - from
    ensures from <= to + 1 ==> |codes| <= (to - from + 1) * |letters|
    ensures forall row, i :: from <= row <= to && 0 <= i < |letters| ==> SeatCode(row, letters[i]) in codes
  {
    if to < from then {}
    else
      assert (to - from + 1) * |letters| == |letters| + (to - (from + 1) + 1) * |letters|;
      RowCodes(from, letters) + Codes(from + 1, to, letters)
  }

  /** A duplicate-free sequence drawn from a set is no longer than the set. */
  lemma {:induction false} DistinctWithin(s: seq<string>, universe: set<string>)
    requires Distinct(s)
    requires forall k :: 0 <= k < |s| ==> s[k] in universe
    ensures |s| <= |universe|
  {
    if s != [] {
      var rest := s[1..];
      assert forall k :: 0 <= k < |rest| ==> rest[k] == s[k + 1];
      DistinctWithin(rest, universe - {s[0]});
    }
  }

  /** A layout cannot yield more distinct codes than it has seats. */
  lemma WithinCapacity(codes: seq<string>, layout: AircraftLayout)
    requires Drawable(layout)
    requires Distinct(codes)
    requires forall k :: 0 <= k < |codes| ==> InLayout(codes[k], layout)
    ensures |codes| <= Capacity(layout)
  {
    var universe := Codes(layout.startRow, layout.endRow, layout.seats);
    forall k | 0 <= k < |codes| ensures codes[k] in universe {
      var row, i :| layout.startRow <= row <= layout.endRow && 0 <= i < |layout.seats|
                    && codes[k] == SeatCode(row, layout.seats[i]);
    }
    DistinctWithin(codes, universe);
  }

  /** Draws up to `count` distinct seat codes for `aircraft`. The random
      source is an arbitrary oracle: every row in range and every letter
      index may be drawn. The ghost `tries` counts the draws made. */
  method GenerateSeats(gen: SeatGenerator, aircraft: AircraftType, count: nat)
    returns (r: Result<seq<string>>, ghost tries: nat)
    requires aircraft in gen.layouts && count > 0 ==> Drawable(gen.layouts[aircraft])
    ensures aircraft !in gen.layouts ==> r == Err(UnknownAircraft) && tries == 0
    ensures tries <= MaxTries
    ensures r.Ok? ==> |r.value| == count && Distinct(r.value)
    ensures aircraft in gen.layouts && r.Ok? ==>
      forall k :: 0 <= k < |r.value| ==> InLayout(r.value[k], gen.layouts[aircraft])
    ensures aircraft in gen.layouts && r.Err? ==> r.error == NotEnoughSeats && tries == MaxTries
    ensures aircraft in gen.layouts && count == 0 ==> r == Ok([]) && tries == 0
    ensures (aircraft in gen.layouts && count > 0
             && (count > MaxTries || count > Capacity(gen.layouts[aircraft]))) ==> r.Err?
  {
    if aircraft !in gen.layouts {
      return Err(UnknownAircraft), 0;
    }
    var layout := gen.layouts[aircraft];
    var result: seq<string> := [];
    var seen: map<string, bool> := map[];
    var attempts := 0;
    while |result| < count && attempts < MaxTries
      invariant attempts <= MaxTries
      invariant count == 0 ==> attempts == 0
      invariant |result| <= attempts && |result| <= count
      invariant Distinct(result)
      invariant forall s :: s in seen <==> s in result
      invariant forall s :: s in seen ==> seen[s]
      invariant forall k :: 0 <= k < |result| ==> InLayout(result[k], layout)
      decreases MaxTries - attempts
    {
      var row :| layout.startRow <= row <= layout.endRow;
      var i :| 0 <= i < |layout.seats|;
      var seat := SeatCode(row, layout.seats[i]);
      if !(seat in seen && seen[seat]) {
        result := result + [seat];
        seen := seen[seat := true];
      }
      attempts := attempts + 1;
    }
    tries := attempts;
    if |result| < count {
      return Err(NotEnoughSeats), tries;
    }
    if count > 0 {
      WithinCapacity(result, layout);
    }
    r := Ok(result);
  }
}
