/** Splitting of the comma-separated seat string of a response. */
module Handler {

  /** Go's `strings.Split(s, ",")`: the pieces between commas, empty pieces
      kept; never empty (the empty string gives one empty piece). */
  function Split(s: string): (pieces: seq<string>)
    ensures |pieces| >= 1
  {
    if s == [] then [""]
    else
      var rest := Split(s[1..]);
      if s[0] == ',' then [""] + rest
      else [[s[0]] + rest[0]] + rest[1..]
  }

  /** The pieces glued back together with a comma between neighbours. */
  function Join(pieces: seq<string>): string
  {
    if |pieces| <= 1 then (if pieces == [] then "" else pieces[0])
    else pieces[0] + "," + Join(pieces[1..])
  }

  /** Number of commas in `s`. */
  function Commas(s: string): nat
  {
    if s == [] then 0 else (if s[0] == ',' then 1 else 0) + Commas(s[1..])
  }

  predicate CommaFree(s: string)
  {
    ',' !in s
  }

  /** The seat list of a response: no seats for the empty string, otherwise
      the comma-separated pieces. */
  function SplitSeats(seats: string): (list: seq<string>)
    ensures seats == "" ==> list == []
    ensures seats != "" ==> Join(list) == seats
    ensures seats != "" ==> |list| == Commas(seats) + 1
    ensures forall k :: 0 <= k < |list| ==> CommaFree(list[k])
  {
    if seats == "" then []
    else
      JoinSplit(seats);
      SplitCount(seats);
      SplitCommaFree(seats);
      Split(seats)
  }

  /** Gluing the pieces back gives the input again. */
  lemma {:induction false} JoinSplit(s: string)
    ensures Join(Split(s)) == s
  {
    if s != [] {
      var rest := Split(s[1..]);
      JoinSplit(s[1..]);
      if s[0] == ',' {
        assert Split(s) == [""] + rest;
        if |rest| == 1 {
          assert Join(Split(s)) == "" + "," + rest[0];
        } else {
          assert Join(Split(s)) == "" + "," + Join(rest);
        }
        assert s == [','] + s[1..];
      } else {
        var pieces := [[s[0]] + rest[0]] + rest[1..];
        assert Split(s) == pieces;
        if |rest| == 1 {
          assert Join(pieces) == [s[0]] + rest[0];
        } else {
          assert pieces[1..] == rest[1..];
          assert Join(pieces) == [s[0]] + rest[0] + "," + Join(rest[1..]);
          assert Join(rest) == rest[0] + "," + Join(rest[1..]);
        }
        assert s == [s[0]] + s[1..];
      }
    }
  }

  /** One piece more than there are commas. */
  lemma {:induction false} SplitCount(s: string)
    ensures |Split(s)| == Commas(s) + 1
  {
    if s != [] {
      SplitCount(s[1..]);
    }
  }

  /** No piece contains a comma. */
  lemma {:induction false} SplitCommaFree(s: string)
    ensures forall k :: 0 <= k < |Split(s)| ==> CommaFree(Split(s)[k])
  {
    if s != [] {
      var rest := Split(s[1..]);
      SplitCommaFree(s[1..]);
      if s[0] != ',' {
        var pieces := Split(s);
        assert pieces == [[s[0]] + rest[0]] + rest[1..];
        forall k | 0 <= k < |pieces| ensures CommaFree(pieces[k]) {
          if k == 0 {
            assert CommaFree(rest[0]);
          } else {
            assert pieces[k] == rest[k];
          }
        }
      }
    }
  }

  /** Splitting undoes joining: comma-free pieces come back unchanged. */
  lemma {:induction false} SplitJoin(pieces: seq<string>)
    requires |pieces| >= 1
    requires forall k :: 0 <= k < |pieces| ==> CommaFree(pieces[k])
    ensures Split(Join(pieces)) == pieces
  {
    if |pieces| == 1 {
      SplitCommaFreePiece(pieces[0]);
    } else {
      SplitJoin(pieces[1..]);
      SplitPrefix(pieces[0], Join(pieces[1..]));
      assert pieces == [pieces[0]] + pieces[1..];
    }
  }

  /** A comma-free string is a single piece. */
  lemma {:induction false} SplitCommaFreePiece(p: string)
    requires CommaFree(p)
    ensures Split(p) == [p]
  {
    if p != [] {
      SplitCommaFreePiece(p[1..]);
      assert p == [p[0]] + p[1..];
    }
  }

  /** Splitting `p + "," + tail` for a comma-free `p` puts `p` in front of
      the pieces of `tail`. */
  lemma {:induction false} SplitPrefix(p: string, tail: string)
    requires CommaFree(p)
    ensures Split(p + "," + tail) == [p] + Split(tail)
  {
    if p == [] {
      assert p + "," + tail == [','] + tail;
      assert (p + "," + tail)[1..] == tail;
    } else {
      SplitPrefix(p[1..], tail);
      var s := p + "," + tail;
      assert s[0] == p[0];
      assert s[1..] == p[1..] + "," + tail;
      assert p == [p[0]] + p[1..];
    }
  }

  /** The response seat list of "3A,5C,8F" is the three codes. */
  lemma SplitSeatsExample()
    ensures SplitSeats("3A,5C,8F") == ["3A", "5C", "8F"]
  {
    SplitJoin(["3A", "5C", "8F"]);
    assert Join(["3A", "5C", "8F"]) == "3A,5C,8F";
  }
}
