/**
 * Commands interpreted directly, with no seat array, counter, bytes or pipes: an event is its grid and the
 * list of accepted seat sets. The serial engine is proved to be a refinement of this.
 */
module Direct {
  import opened Common
  import opened Seats
  import opened Ems
  import opened Numbers
  import opened Output
  import opened History

  datatype Hall = Hall(rows: nat, cols: nat, granted: seq<set<Seat>>)

  /** The event ids in creation order, and the event of each id. */
  datatype Halls = Halls(order: seq<uint>, of: map<uint, Hall>)

  const NO_HALLS := Halls([], map[])

  function SeatSet(req: seq<Seat>): set<Seat> {
    set s | s in req
  }

  /** The number of the reservation that holds a seat, 0 if none does. */
  function Label(granted: seq<set<Seat>>, s: Seat): (k: nat)
    ensures k <= |granted| && (k > 0 ==> s in granted[k - 1])
    ensures (k == 0 <==> forall i :: 0 <= i < |granted| ==> s !in granted[i])
  {
    if granted == [] then 0
    else if s in granted[|granted| - 1] then |granted|
    else Label(granted[..|granted| - 1], s)
  }

  ghost predicate Takes(h: Hall, seats: set<Seat>) {
    && (forall s :: s in seats ==> InGrid(h.rows, h.cols, s))
    && (forall k :: 0 <= k < |h.granted| ==> h.granted[k] !! seats)
  }

  // ---- What is printed -------------------------------------------------------------------------------------

  /** The seats of a row from some column on. */
  function RowOf(h: Hall, row: size, col: nat): seq<char>
    requires h.cols <= SIZE_MAX
    decreases h.cols + 1 - col
  {
    if col > h.cols then "" else Decimal(Label(h.granted, Seat(row, col))) + (" " + RowOf(h, row, col + 1))
  }

  /** The rows from some row on. */
  function GridOf(h: Hall, row: nat): seq<char>
    requires h.rows <= SIZE_MAX && h.cols <= SIZE_MAX
    decreases h.rows + 1 - row
  {
    if row > h.rows then "" else RowOf(h, row, 1) + ("\n" + GridOf(h, row + 1))
  }

  function Listing(ids: seq<uint>): seq<char> {
    if ids == [] then "" else "Event: " + (Decimal(ids[0]) + ("\n" + Listing(ids[1..])))
  }

  ghost predicate Fits(b: Halls) {
    && (forall id :: id in b.of ==> b.of[id].rows * b.of[id].cols <= SIZE_MAX
                                    && b.of[id].rows <= SIZE_MAX && b.of[id].cols <= SIZE_MAX)
  }

  /** One command: the new state, what it adds to the output file, and the result code of its reply. */
  ghost function Interpret(b: Halls, op: Op, fails: bool): (r: (Halls, seq<char>, int))
    requires Fits(b) && ValidOp(op)
    ensures Fits(r.0)
  {
    match op
    case Create(id, rows, cols) =>
      if id in b.of || fails then (b, "", 1)
      else (Halls(b.order + [id], b.of[id := Hall(rows, cols, [])]), "", 0)
    case Reserve(id, req) =>
      if id !in b.of || !Takes(b.of[id], SeatSet(req)) then (b, "", 1)
      else (b.(of := b.of[id := b.of[id].(granted := b.of[id].granted + [SeatSet(req)])]), "", 0)
    case Show(id) => if id in b.of then (b, GridOf(b.of[id], 1), 0) else (b, "", 1)
    case ListEvents => if b.order == [] then (b, "No events\n", 2) else (b, Listing(b.order), 0)
  }

  /** A list of commands: the final state, the output file, and the result code of each. */
  ghost function InterpretAll(b: Halls, ops: seq<Op>, fails: nat -> bool, k: nat): (Halls, seq<char>, seq<int>)
    requires Fits(b) && forall i :: 0 <= i < |ops| ==> ValidOp(ops[i])
    decreases |ops|
  {
    if ops == [] then (b, "", [])
    else
      var (b', text, code) := Interpret(b, ops[0], fails(k));
      var later := InterpretAll(b', ops[1..], fails, k + 1);
      (later.0, text + later.1, [code] + later.2)
  }

  /** The result code a reply starts with. */
  function CodeOf(reply: Reply): int {
    if reply.Code? then reply.code else 0
  }

  function CodesOf(replies: seq<Reply>): (codes: seq<int>)
    ensures |codes| == |replies|
  {
    seq(|replies|, i requires 0 <= i < |replies| => CodeOf(replies[i]))
  }

  lemma CodesCons(reply: Reply, replies: seq<Reply>)
    ensures CodesOf([reply] + replies) == [CodeOf(reply)] + CodesOf(replies)
  {
  }

  // ---- The serial engine refines it ---------------------------------------------------------------------------

  /** No event has had so many reservations that its counter wrapped. */
  ghost predicate Countable(b: Halls) {
    forall id :: id in b.of ==> |b.of[id].granted| <= UINT_MAX
  }

  ghost predicate EventMatches(e: Event, h: Hall) {
    && ValidEvent(e) && e.rows == h.rows && e.cols == h.cols
    && e.reservations == |h.granted|
    && (forall s :: InGrid(e.rows, e.cols, s) ==> CellOf(e, s) == Label(h.granted, s))
  }

  ghost predicate Matches(s: State, b: Halls) {
    && Ems.Valid(s) && Fits(b)
    && |s| == |b.order| && (forall i :: 0 <= i < |s| ==> s[i].id == b.order[i])
    && (forall id :: id in b.of <==> id in b.order)
    && (forall i :: 0 <= i < |s| ==> EventMatches(s[i], b.of[b.order[i]]))
  }

  lemma FindMatches(s: State, b: Halls, id: uint)
    requires Matches(s, b)
    ensures Find(s, id).Some? <==> id in b.of
    ensures Find(s, id).Some? ==> b.order[Find(s, id).value] == id
    ensures forall i, j :: 0 <= i < j < |b.order| ==> b.order[i] != b.order[j]
  {
    hide EventMatches;
    if id in b.of {
      var i :| 0 <= i < |b.order| && b.order[i] == id;
      assert s[i].id == id;
    }
  }

  lemma NothingMatches()
    ensures Matches([], NO_HALLS)
  {
  }

  lemma TakesIffAccepts(e: Event, h: Hall, req: seq<Seat>)
    requires EventMatches(e, h)
    ensures Takes(h, SeatSet(req)) <==> Accepts(e, req)
  {
    if Accepts(e, req) {
      forall k | 0 <= k < |h.granted| ensures h.granted[k] !! SeatSet(req) {
        forall s | s in SeatSet(req) ensures s !in h.granted[k] {
          assert CellOf(e, s) == 0;
        }
      }
    }
    if Takes(h, SeatSet(req)) {
      forall s | s in req ensures InGrid(e.rows, e.cols, s) && CellOf(e, s) == 0 {
        assert s in SeatSet(req);
      }
    }
  }

  lemma GrantMatches(e: Event, h: Hall, req: seq<Seat>)
    requires EventMatches(e, h) && Accepts(e, req) && |h.granted| < UINT_MAX
    ensures EventMatches(Granted(e, req), h.(granted := h.granted + [SeatSet(req)]))
  {
    var granted := h.granted + [SeatSet(req)];
    assert granted[..|granted| - 1] == h.granted;
    var e' := Granted(e, req);
    forall s | InGrid(e.rows, e.cols, s) ensures CellOf(e', s) == Label(granted, s) {
      IndexInRange(e.rows, e.cols, s);
      var i := Index(e.cols, s);
      assert i in Cells(e.cols, req) <==> s in req by {
        if i in Cells(e.cols, req) {
          var t :| t in req && Index(e.cols, t) == i;
          IndexInjective(e.rows, e.cols, s, t);
        }
      }
      assert CellOf(e, s) == e.seats[i];
    }
  }

  lemma NewMatches(id: uint, rows: size, cols: size)
    requires rows * cols <= SIZE_MAX
    ensures EventMatches(NewEvent(id, rows, cols), Hall(rows, cols, []))
  {
    forall s | InGrid(rows, cols, s) ensures CellOf(NewEvent(id, rows, cols), s) == 0 {
      IndexInRange(rows, cols, s);
    }
  }

  /** `a` is where the row starts in the array. */
  lemma {:induction false} RowPrints(e: Event, h: Hall, row: size, col: nat, a: nat)
    requires EventMatches(e, h) && 1 <= row <= e.rows && 1 <= col <= e.cols + 1
    requires a == (row - 1) * e.cols && a + e.cols <= |e.seats|
    ensures RowText(e.seats[a + col - 1..a + e.cols]) == RowOf(h, row, col)
    decreases e.cols + 1 - col
  {
    hide Decimal;
    var cells := e.seats[a + col - 1..a + e.cols];
    if col <= e.cols {
      SeatIsAt(e, h, row, col, a);
      hide EventMatches;
      assert cells[0] == e.seats[a + col - 1];
      assert cells[1..] == e.seats[a + col..a + e.cols];
      RowPrints(e, h, row, col + 1, a);
    }
  }

  lemma SeatIsAt(e: Event, h: Hall, row: size, col: nat, a: nat)
    requires EventMatches(e, h) && 1 <= row <= e.rows && 1 <= col <= e.cols
    requires a == (row - 1) * e.cols && a + e.cols <= |e.seats|
    ensures e.cols == h.cols && e.seats[a + col - 1] == Label(h.granted, Seat(row, col))
  {
    assert InGrid(e.rows, e.cols, Seat(row, col));
    assert CellOf(e, Seat(row, col)) == e.seats[a + col - 1];
  }

  lemma OneRowLess(n: nat, cols: nat)
    requires n > 0
    ensures n * cols == (n - 1) * cols + cols
  {
  }

  /** `a` is where the row starts in the array. */
  lemma {:induction false} GridPrints(e: Event, h: Hall, row: nat, a: nat)
    requires EventMatches(e, h) && 1 <= row <= e.rows + 1
    requires a == (row - 1) * e.cols && a <= |e.seats| && |e.seats| - a == (e.rows + 1 - row) * e.cols
    ensures RowsText(e.seats[a..], e.rows + 1 - row, e.cols) == GridOf(h, row)
    decreases e.rows + 1 - row
  {
    hide RowText, RowOf;
    if row <= e.rows {
      var cells := e.seats[a..];
      OneRowLess(row, e.cols);
      OneRowLess(e.rows + 1 - row, e.cols);
      assert a + e.cols <= |e.seats| by { RowFits(e.rows, e.cols, row); }
      RowPrints(e, h, row, 1, a);
      assert cells[..e.cols] == e.seats[a..a + e.cols];
      GridPrints(e, h, row + 1, a + e.cols);
      assert cells[e.cols..] == e.seats[a + e.cols..];
    }
  }

  /** Showing the flat array prints the grid seat by seat. */
  lemma ShowPrints(e: Event, h: Hall)
    requires EventMatches(e, h)
    ensures RowsText(e.seats, e.rows, e.cols) == GridOf(h, 1)
  {
    hide RowsText;
    GridPrints(e, h, 1, 0);
    assert e.seats[0..] == e.seats;
  }

  lemma {:induction false} ListPrints(ids: seq<uint>)
    requires ids != []
    ensures IdsText(ids) == Listing(ids)
  {
    hide Decimal;
    if |ids| > 1 {
      ListPrints(ids[1..]);
    } else {
      assert "" + "\n" == "\n" + "";
    }
  }

  /** A reply with what the client prints for it says what direct interpretation says. */
  ghost predicate Tells(op: Op, reply: Reply, told: (Halls, seq<char>, int)) {
    && (reply.Matrix? ==> |reply.cells| == reply.rows * reply.cols)
    && Render(op, reply) == told.1 && CodeOf(reply) == told.2
  }

  lemma ReserveMatches(s: State, b: Halls, id: uint, req: seq<Seat>)
    requires Matches(s, b) && Countable(Interpret(b, Reserve(id, req), false).0)
    ensures Matches(Apply(s, Reserve(id, req), false).0, Interpret(b, Reserve(id, req), false).0)
    ensures Tells(Reserve(id, req), Apply(s, Reserve(id, req), false).1, Interpret(b, Reserve(id, req), false))
  {
    hide EventMatches, Granted, Accepts, Takes, Ems.Valid;
    ApplyValid(s, Reserve(id, req), false);
    var c := Interpret(b, Reserve(id, req), false).0;
    FindMatches(s, b, id);
    if id in b.of {
      var i := Find(s, id).value;
      TakesIffAccepts(s[i], b.of[id], req);
      if Takes(b.of[id], SeatSet(req)) {
        assert |c.of[id].granted| <= UINT_MAX;
        GrantMatches(s[i], b.of[id], req);
        GrantKeepsId(s[i], req);
      }
    }
  }

  lemma GrantKeepsId(e: Event, req: seq<Seat>)
    ensures Granted(e, req).id == e.id
  {
  }

  lemma CreateMatches(s: State, b: Halls, id: uint, rows: size, cols: size, fails: bool)
    requires Matches(s, b) && rows * cols <= SIZE_MAX
    ensures Matches(Apply(s, Create(id, rows, cols), fails).0, Interpret(b, Create(id, rows, cols), fails).0)
    ensures Tells(Create(id, rows, cols), Apply(s, Create(id, rows, cols), fails).1,
                  Interpret(b, Create(id, rows, cols), fails))
  {
    hide EventMatches, NewEvent, Ems.Valid;
    ApplyValid(s, Create(id, rows, cols), fails);
    FindMatches(s, b, id);
    NewId(id, rows, cols);
    NewMatches(id, rows, cols);
  }

  lemma NewId(id: uint, rows: size, cols: size)
    ensures NewEvent(id, rows, cols).id == id
  {
  }

  lemma ShowMatches(s: State, b: Halls, id: uint)
    requires Matches(s, b)
    ensures Tells(Show(id), Apply(s, Show(id), false).1, Interpret(b, Show(id), false))
  {
    hide EventMatches, RowsText, GridOf, Ems.Valid;
    FindMatches(s, b, id);
    if id in b.of {
      var i := Find(s, id).value;
      ValidSize(s, i);
      ShowPrints(s[i], b.of[id]);
    }
  }

  lemma ListMatches(s: State, b: Halls)
    requires Matches(s, b)
    ensures Tells(ListEvents, Apply(s, ListEvents, false).1, Interpret(b, ListEvents, false))
  {
    hide EventMatches, IdsText, Listing, Ems.Valid;
    assert IdsOf(s) == b.order;
    if s != [] { ListPrints(IdsOf(s)); }
  }

  lemma OnlyCreateMayFail(b: Halls, op: Op, fails: bool)
    requires Fits(b) && ValidOp(op) && !op.Create?
    ensures Interpret(b, op, fails) == Interpret(b, op, false)
    ensures !op.Reserve? ==> Interpret(b, op, fails).0 == b
  {
  }

  lemma OnlyReserveAndCreateChange(s: State, op: Op, fails: bool)
    requires Ems.Valid(s) && !op.Create? && !op.Reserve?
    ensures Apply(s, op, fails).0 == s
  {
  }

  /** One call of the engine, with its code and what the client prints, is one directly interpreted command. */
  lemma CallMatches(s: State, b: Halls, op: Op, fails: bool)
    requires Matches(s, b) && ValidOp(op) && Countable(Interpret(b, op, fails).0)
    ensures Matches(Apply(s, op, fails).0, Interpret(b, op, fails).0)
    ensures Tells(op, Apply(s, op, fails).1, Interpret(b, op, fails))
  {
    if op.Create? {
      CreateMatches(s, b, op.id, op.rows, op.cols, fails);
    } else {
      hide Interpret, Apply, Tells, Countable, EventMatches, Ems.Valid, Fits;
      OnlyCreateAllocates(s, op, fails);
      OnlyCreateMayFail(b, op, fails);
      match op
      case Reserve(id, req) => ReserveMatches(s, b, id, req);
      case Show(id) =>
        ShowMatches(s, b, id);
        OnlyReserveAndCreateChange(s, op, fails);
      case ListEvents =>
        ListMatches(s, b);
        OnlyReserveAndCreateChange(s, op, fails);
    }
  }

  lemma ValidSize(s: State, i: nat)
    requires Ems.Valid(s) && i < |s|
    ensures |s[i].seats| == s[i].rows * s[i].cols
  {
  }

  // ---- When no counter wraps -----------------------------------------------------------------------------------

  /** Reservations are non-empty, within the grid and pairwise disjoint. */
  ghost predicate Apart(h: Hall) {
    && (forall k :: 0 <= k < |h.granted| ==> h.granted[k] != {})
    && (forall k, s :: 0 <= k < |h.granted| && s in h.granted[k] ==> InGrid(h.rows, h.cols, s))
    && (forall j, k :: 0 <= j < k < |h.granted| ==> h.granted[j] !! h.granted[k])
  }

  ghost function OneOf(seats: set<Seat>): (s: Seat)
    requires seats != {}
    ensures s in seats
  {
    var s :| s in seats; s
  }

  /** One cell for each of the first `n` reservations. */
  lemma {:induction false} OneCellEach(h: Hall, n: nat) returns (cells: set<int>)
    requires Apart(h) && n <= |h.granted|
    ensures |cells| == n
    ensures forall i :: i in cells ==>
              0 <= i < h.rows * h.cols
              && exists j, s :: 0 <= j < n && s in h.granted[j] && Index(h.cols, s) == i
  {
    cells := {};
    if n > 0 {
      var before := OneCellEach(h, n - 1);
      var s := OneOf(h.granted[n - 1]);
      var i := Index(h.cols, s);
      IndexInRange(h.rows, h.cols, s);
      if i in before {
        var j, t :| 0 <= j < n - 1 && t in h.granted[j] && Index(h.cols, t) == i;
        IndexInjective(h.rows, h.cols, s, t);
      }
      cells := before + {i};
    }
  }

  /** There are no more reservations than seats. */
  lemma NoMoreThanSeats(h: Hall)
    requires Apart(h)
    ensures |h.granted| <= h.rows * h.cols
  {
    var cells := OneCellEach(h, |h.granted|);
    BoundedSetSize(cells, h.rows * h.cols);
  }

  /** Grids of at most 2^32 - 1 seats. */
  ghost predicate Small(b: Halls) {
    forall id :: id in b.of ==> Apart(b.of[id]) && b.of[id].rows * b.of[id].cols <= UINT_MAX
  }

  /** Requests that name a seat and grids of at most 2^32 - 1 seats. */
  ghost predicate SmallOp(op: Op) {
    match op
    case Create(_, rows, cols) => rows * cols <= UINT_MAX
    case Reserve(_, req) => req != []
    case _ => true
  }

  lemma StaysSmall(b: Halls, op: Op, fails: bool)
    requires Fits(b) && Small(b) && ValidOp(op) && SmallOp(op)
    ensures Small(Interpret(b, op, fails).0)
  {
    if op.Reserve? && op.req != [] {
      assert op.req[0] in SeatSet(op.req);
    }
  }

  /** Where every request names a seat and no grid has more than 2^32 - 1 seats, no counter wraps. */
  lemma {:induction false} SmallGridsCount(b: Halls, ops: seq<Op>, fails: nat -> bool, k: nat)
    requires Fits(b) && Small(b) && forall i :: 0 <= i < |ops| ==> ValidOp(ops[i]) && SmallOp(ops[i])
    ensures Countable(InterpretAll(b, ops, fails, k).0)
    decreases |ops|
  {
    hide Fits, Small, ValidOp, SmallOp, Interpret;
    if ops == [] {
      SmallIsCountable(b);
    } else {
      StaysSmall(b, ops[0], fails(k));
      SmallGridsCount(Interpret(b, ops[0], fails(k)).0, ops[1..], fails, k + 1);
    }
  }

  lemma SmallIsCountable(b: Halls)
    requires Small(b)
    ensures Countable(b)
  {
    forall id | id in b.of ensures |b.of[id].granted| <= UINT_MAX {
      NoMoreThanSeats(b.of[id]);
    }
  }

  /** Nor in a session of at most 2^32 - 1 operations. */
  lemma {:induction false} FewOperationsCount(b: Halls, ops: seq<Op>, fails: nat -> bool, k: nat)
    requires Fits(b) && forall i :: 0 <= i < |ops| ==> ValidOp(ops[i])
    requires forall id :: id in b.of ==> |b.of[id].granted| + |ops| <= UINT_MAX
    requires |ops| <= UINT_MAX
    ensures Countable(InterpretAll(b, ops, fails, k).0)
    decreases |ops|
  {
    hide Fits, Takes, GridOf, Listing;
    if ops != [] {
      FewOperationsCount(Interpret(b, ops[0], fails(k)).0, ops[1..], fails, k + 1);
    }
  }
}
