/** One turn of each loop of ems_reserve, on values: shared by the heap class and the step machine. */
module Scan {
  import opened Seats
  import opened Ems

  /** The cells scanned so far that the request names are free. */
  ghost predicate FreeBelow(e: Event, req: seq<Seat>, i: int)
    requires ValidEvent(e)
  {
    forall k :: 0 <= k < |req| && 0 <= Index(e.cols, req[k]) < i && Index(e.cols, req[k]) < |e.seats| ==>
      e.seats[Index(e.cols, req[k])] == 0
  }

  /** One turn of the nested scan over cells `i` and pairs `j`. */
  lemma ScanTurn(e: Event, req: seq<Seat>, i: nat, j: nat)
    requires ValidEvent(e) && AllInGrid(e, req) && i <= e.rows * e.cols && j <= |req| && FreeBelow(e, req, i)
    requires forall k :: 0 <= k < j ==> Index(e.cols, req[k]) != i
    ensures j < |req| ==> MachineIndex(e.cols, req[j]) == Index(e.cols, req[j])
    ensures i == |e.seats| ==> Accepts(e, req)
    ensures j == |req| ==> FreeBelow(e, req, i + 1)
    ensures j < |req| && i < |e.seats| && Index(e.cols, req[j]) == i && e.seats[i] != 0 ==> !Accepts(e, req)
    ensures j < |req| && i < |e.seats| && Index(e.cols, req[j]) == i && e.seats[i] == 0 ==> FreeBelow(e, req, i + 1)
  {
    if j < |req| {
      assert req[j] in req;
      IndexDoesNotWrap(e.rows, e.cols, req[j]);
      if i < |e.seats| && Index(e.cols, req[j]) == i {
        assert CellOf(e, req[j]) == e.seats[i];
      }
    }
    if i == |e.seats| {
      forall x | x in req ensures CellOf(e, x) == 0 {
        var k :| 0 <= k < |req| && req[k] == x;
        IndexInRange(e.rows, e.cols, x);
        assert e.seats[Index(e.cols, req[k])] == 0;
      }
    }
  }

  lemma MarkNothing(e: Event)
    requires ValidEvent(e)
    ensures Granted(e, []) == e.(reservations := NextId(e.reservations))
  {
    assert Mark(e.seats, Cells(e.cols, []), NextId(e.reservations)) == e.seats;
  }

  /** Writing one more seat turns the grant of a prefix into the grant of the next prefix. */
  lemma MarkOneMore(e: Event, req: seq<Seat>, i: nat)
    requires ValidEvent(e) && AllInGrid(e, req) && i < |req|
    ensures var c := MachineIndex(e.cols, req[i]);
            && c < |e.seats|
            && var half := Granted(e, req[..i]);
            Granted(e, req[..i + 1]) == half.(seats := half.seats[c := half.reservations])
  {
    assert req[i] in req;
    IndexInRange(e.rows, e.cols, req[i]);
    IndexDoesNotWrap(e.rows, e.cols, req[i]);
    var c := Index(e.cols, req[i]);
    assert req[..i + 1] == req[..i] + [req[i]];
    assert Cells(e.cols, req[..i + 1]) == Cells(e.cols, req[..i]) + {c} by {
      forall x ensures x in Cells(e.cols, req[..i + 1]) <==> x in Cells(e.cols, req[..i]) || x == c {
        if x in Cells(e.cols, req[..i]) {
          var q :| q in req[..i] && x == Index(e.cols, q);
          assert q in req[..i + 1];
        }
        if x == c { assert req[i] in req[..i + 1]; }
      }
    }
    var half := Granted(e, req[..i]);
    assert Mark(e.seats, Cells(e.cols, req[..i + 1]), half.reservations) == half.seats[c := half.reservations];
  }
}
