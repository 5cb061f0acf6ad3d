/**
 * The serial meaning of the reservation engine: what each call of operations.c does when it
 * runs alone, on values. The heap classes and the step machine are proved against it.
 */
module Ems {
  import opened Common
  import opened Seats

  /** An event; the serial state is the sequence of events in creation order. */
  datatype Event = Event(id: uint, rows: size, cols: size, reservations: uint, seats: seq<uint>)

  type State = seq<Event>

  datatype Op =
    | Create(id: uint, rows: size, cols: size)
    | Reserve(id: uint, req: seq<Seat>)
    | Show(id: uint)
    | ListEvents

  /** A bare result code, or a result code 0 with the data sent after it. */
  datatype Reply =
    | Code(code: int)
    | Matrix(rows: size, cols: size, cells: seq<uint>)
    | Ids(count: nat, ids: seq<uint>)

  ghost predicate ValidEvent(e: Event) {
    e.rows * e.cols <= SIZE_MAX && |e.seats| == e.rows * e.cols
  }

  /** Every event is well formed and no id is used twice. */
  ghost predicate Valid(s: State) {
    && (forall i :: 0 <= i < |s| ==> ValidEvent(s[i]))
    && (forall i, j :: 0 <= i < j < |s| ==> s[i].id != s[j].id)
  }

  /** A create call names a grid whose size is a `size_t`. */
  predicate ValidOp(op: Op) {
    op.Create? ==> op.rows * op.cols <= SIZE_MAX
  }

  // ---- Lookup ---------------------------------------------------------------------------

  function Find(s: State, id: uint): (r: Option<nat>)
    ensures r.Some? ==> r.value < |s| && s[r.value].id == id
    ensures r.None? ==> forall i :: 0 <= i < |s| ==> s[i].id != id
  {
    if s == [] then None
    else if s[|s| - 1].id == id then Some(|s| - 1)
    else Find(s[..|s| - 1], id)
  }

  lemma FindIs(s: State, id: uint, i: nat)
    requires Valid(s) && i < |s| && s[i].id == id
    ensures Find(s, id) == Some(i)
  {
  }

  // ---- One event ------------------------------------------------------------------------

  function CellOf(e: Event, s: Seat): uint
    requires ValidEvent(e) && InGrid(e.rows, e.cols, s)
  {
    IndexInRange(e.rows, e.cols, s);
    e.seats[Index(e.cols, s)]
  }

  /** Every named seat exists and is free. */
  ghost predicate Accepts(e: Event, req: seq<Seat>)
    requires ValidEvent(e)
  {
    forall s :: s in req ==> InGrid(e.rows, e.cols, s) && CellOf(e, s) == 0
  }

  ghost predicate AllInGrid(e: Event, req: seq<Seat>) {
    forall s :: s in req ==> InGrid(e.rows, e.cols, s)
  }

  /** The seat array with the given cells set to a reservation id. */
  function Mark(seats: seq<uint>, cells: set<int>, id: uint): seq<uint> {
    seq(|seats|, i requires 0 <= i < |seats| => if i in cells then id else seats[i])
  }

  /** The counter after `++event->reservations`, which wraps like any unsigned int. */
  function NextId(reservations: uint): uint {
    (reservations + 1) % (UINT_MAX + 1)
  }

  function Granted(e: Event, req: seq<Seat>): Event {
    var id := NextId(e.reservations);
    e.(reservations := id, seats := Mark(e.seats, Cells(e.cols, req), id))
  }

  function NewEvent(id: uint, rows: size, cols: size): Event {
    Event(id, rows, cols, 0, seq(rows * cols, i => 0))
  }

  // ---- Whole calls ----------------------------------------------------------------------

  /** The new state and the reply of one call; `fails` is an allocation failure in ems_create. */
  ghost function Apply(s: State, op: Op, fails: bool): (State, Reply)
    requires Valid(s)
  {
    match op
    case Create(id, rows, cols) =>
      if Find(s, id).Some? || fails then (s, Code(1)) else (s + [NewEvent(id, rows, cols)], Code(0))
    case Reserve(id, req) =>
      (match Find(s, id)
       case None => (s, Code(1))
       case Some(i) =>
         if Accepts(s[i], req) then (s[i := Granted(s[i], req)], Code(0)) else (s, Code(1)))
    case Show(id) =>
      (match Find(s, id)
       case None => (s, Code(1))
       case Some(i) => (s, Matrix(s[i].rows, s[i].cols, s[i].seats)))
    case ListEvents =>
      if s == [] then (s, Code(2)) else (s, Ids(|s|, IdsOf(s)))
  }

  function IdsOf(s: State): seq<uint> {
    seq(|s|, i requires 0 <= i < |s| => s[i].id)
  }

  lemma OnlyCreateAllocates(s: State, op: Op, fails: bool)
    requires Valid(s) && !op.Create?
    ensures Apply(s, op, fails) == Apply(s, op, false)
  {
  }

  lemma ApplyValid(s: State, op: Op, fails: bool)
    requires Valid(s) && ValidOp(op)
    ensures Valid(Apply(s, op, fails).0)
  {
  }

  /** Nothing is ever removed, moved, renamed or resized. */
  lemma ApplyKeeps(s: State, op: Op, fails: bool)
    requires Valid(s)
    ensures var t := Apply(s, op, fails).0;
            && |s| <= |t|
            && forall i :: 0 <= i < |s| ==> t[i].id == s[i].id && t[i].rows == s[i].rows && t[i].cols == s[i].cols
  {
  }

  // ---- Ids are machine integers, so there are at most 2^32 events ------------------------------------

  lemma {:induction false} AtMostAllIds(s: State, n: nat)
    requires Valid(s) && forall i :: 0 <= i < |s| ==> s[i].id < n
    ensures |s| <= n
  {
    if s != [] {
      assert s[0].id < n;
      var k := if exists i :: 0 <= i < |s| && s[i].id == n - 1 then Pick(s, n - 1) else |s| - 1;
      var t := s[..k] + s[k + 1..];
      assert forall i :: 0 <= i < |t| ==> t[i] == s[if i < k then i else i + 1];
      AtMostAllIds(t, n - 1);
    }
  }

  ghost function Pick(s: State, id: int): (i: nat)
    requires exists i :: 0 <= i < |s| && s[i].id == id
    ensures i < |s| && s[i].id == id
  {
    var i :| 0 <= i < |s| && s[i].id == id; i
  }

  lemma EventCountFits(s: State)
    requires Valid(s)
    ensures |s| <= SIZE_MAX
  {
    AtMostAllIds(s, UINT_MAX + 1);
  }
}
