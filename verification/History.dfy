/** What every serial run of calls keeps: labels, disjointness, counters, permanence, commutation. */
module History {
  import opened Common
  import opened Seats
  import opened Ems

  /** One call of a run, with the outcome of its memory allocation. */
  datatype Call = Call(op: Op, fails: bool)

  ghost predicate ValidCalls(calls: seq<Call>) {
    forall i :: 0 <= i < |calls| ==> ValidOp(calls[i].op)
  }

  /** The state after a run that starts with no events. */
  ghost function StateAfter(calls: seq<Call>): (s: State)
    requires ValidCalls(calls)
    ensures Valid(s)
  {
    if calls == [] then []
    else
      var n := |calls| - 1;
      var before := StateAfter(calls[..n]);
      ApplyValid(before, calls[n].op, calls[n].fails);
      Apply(before, calls[n].op, calls[n].fails).0
  }

  /** The reply a call gets when it is the last of a run. */
  ghost function LastReply(calls: seq<Call>): Reply
    requires ValidCalls(calls) && calls != []
  {
    var n := |calls| - 1;
    Apply(StateAfter(calls[..n]), calls[n].op, calls[n].fails).1
  }

  /** The requests granted on an event during a run, oldest first. */
  ghost function Accepted(calls: seq<Call>, id: uint): seq<seq<Seat>>
    requires ValidCalls(calls)
  {
    if calls == [] then []
    else
      var n := |calls| - 1;
      var op := calls[n].op;
      Accepted(calls[..n], id)
        + if op.Reserve? && op.id == id && LastReply(calls) == Code(0) then [op.req] else []
  }

  /** Seat `c` holds `k > 0` exactly when the `k`-th granted request names it. */
  ghost predicate Labelled(e: Event, granted: seq<seq<Seat>>)
    requires ValidEvent(e)
  {
    && e.reservations == |granted|
    && (forall req :: req in granted ==> AllInGrid(e, req))
    && (forall c, k :: 0 <= c < |e.seats| && 0 <= k < |granted| ==>
          (c in Cells(e.cols, granted[k]) <==> e.seats[c] == k + 1))
    && (forall c :: 0 <= c < |e.seats| ==> e.seats[c] <= |granted|)
  }

  lemma CellsInRange(e: Event, req: seq<Seat>, c: int)
    requires AllInGrid(e, req) && c in Cells(e.cols, req)
    ensures 0 <= c < e.rows * e.cols
  {
    var s :| s in req && c == Index(e.cols, s);
    IndexInRange(e.rows, e.cols, s);
  }

  /** A granted request names only free cells. */
  lemma AcceptedCellsAreFree(e: Event, req: seq<Seat>)
    requires ValidEvent(e) && Accepts(e, req)
    ensures forall c :: c in Cells(e.cols, req) ==> 0 <= c < |e.seats| && e.seats[c] == 0
  {
    forall c | c in Cells(e.cols, req)
      ensures 0 <= c < |e.seats| && e.seats[c] == 0
    {
      var s :| s in req && c == Index(e.cols, s);
      IndexInRange(e.rows, e.cols, s);
      assert CellOf(e, s) == 0;
    }
  }

  lemma GrantKeepsLabels(e: Event, granted: seq<seq<Seat>>, req: seq<Seat>)
    requires ValidEvent(e) && Labelled(e, granted) && Accepts(e, req) && |granted| < UINT_MAX
    ensures Labelled(Granted(e, req), granted + [req])
  {
    AcceptedCellsAreFree(e, req);
    var f := Granted(e, req);
    var all := granted + [req];
    var n := |granted|;
    assert f.reservations == n + 1;
    forall c, k | 0 <= c < |f.seats| && 0 <= k < |all|
      ensures c in Cells(f.cols, all[k]) <==> f.seats[c] == k + 1
    {
      if k < n {
        assert c in Cells(e.cols, granted[k]) <==> e.seats[c] == k + 1;
      }
    }
  }

  lemma NewEventLabelled(id: uint, rows: size, cols: size)
    requires rows * cols <= SIZE_MAX
    ensures Labelled(NewEvent(id, rows, cols), [])
  {
  }

  lemma {:induction false} NothingAcceptedBeforeCreate(calls: seq<Call>, id: uint)
    requires ValidCalls(calls) && Find(StateAfter(calls), id).None?
    ensures Accepted(calls, id) == []
  {
    if calls != [] {
      var n := |calls| - 1;
      var s := StateAfter(calls[..n]);
      ApplyKeeps(s, calls[n].op, calls[n].fails);
      assert Find(s, id).None?;
      NothingAcceptedBeforeCreate(calls[..n], id);
    }
  }

  /**
   * How the last call of a run changes one event and its list of granted requests: the event is
   * new, or it is granted a request, or neither changes.
   */
  lemma LastCallOnEvent(calls: seq<Call>, i: nat)
    requires ValidCalls(calls) && calls != [] && i < |StateAfter(calls)|
    ensures var n := |calls| - 1;
            var before, after := StateAfter(calls[..n]), StateAfter(calls);
            var id := after[i].id;
            || (i == |before| && Accepted(calls, id) == [] && |after| == i + 1
                && calls[n].op.Create? && after[i] == NewEvent(id, calls[n].op.rows, calls[n].op.cols))
            || (i < |before| && after[i] == before[i] && Accepted(calls, id) == Accepted(calls[..n], id))
            || (i < |before| && before[i].id == id && calls[n].op.Reserve?
                && Accepts(before[i], calls[n].op.req) && after[i] == Granted(before[i], calls[n].op.req)
                && Accepted(calls, id) == Accepted(calls[..n], id) + [calls[n].op.req])
  {
    var n := |calls| - 1;
    var op := calls[n].op;
    var before, after := StateAfter(calls[..n]), StateAfter(calls);
    var id := after[i].id;
    if i == |before| {
      assert Find(before, id).None?;
      NothingAcceptedBeforeCreate(calls[..n], id);
    } else {
      FindIs(before, before[i].id, i);
      if op.Reserve? && op.id != id {
        assert after[i] == before[i];
      }
    }
  }

  /**
   * The history theorem: in every serial run the seats and the counter of an event tell its
   * granted requests, exactly as long as the counter has not wrapped.
   */
  lemma {:induction false} LabelsTellHistory(calls: seq<Call>, i: nat)
    requires ValidCalls(calls) && i < |StateAfter(calls)|
    ensures var e := StateAfter(calls)[i];
            var granted := Accepted(calls, e.id);
            Labelled(e, granted) <==> |granted| <= UINT_MAX
  {
    var n := |calls| - 1;
    var e := StateAfter(calls)[i];
    LastCallOnEvent(calls, i);
    LabelledFits(e, Accepted(calls, e.id));
    hide Labelled;
    if i < |StateAfter(calls[..n])| {
      LabelsTellHistory(calls[..n], i);
      var prior := StateAfter(calls[..n])[i];
      if |Accepted(calls, e.id)| <= UINT_MAX && e != prior {
        GrantKeepsLabels(prior, Accepted(calls[..n], prior.id), calls[n].op.req);
      }
    } else {
      NewEventLabelled(e.id, calls[n].op.rows, calls[n].op.cols);
    }
  }

  lemma LabelledFits(e: Event, granted: seq<seq<Seat>>)
    requires ValidEvent(e)
    ensures Labelled(e, granted) ==> |granted| <= UINT_MAX
  {
  }

  /** No two granted requests of one event name a common seat. */
  lemma GrantedRequestsDisjoint(e: Event, granted: seq<seq<Seat>>, j: nat, k: nat)
    requires ValidEvent(e) && Labelled(e, granted) && j < k < |granted|
    ensures Cells(e.cols, granted[j]) !! Cells(e.cols, granted[k])
  {
    assert granted[j] in granted;
    forall c | c in Cells(e.cols, granted[j])
      ensures c !in Cells(e.cols, granted[k])
    {
      CellsInRange(e, granted[j], c);
      assert e.seats[c] == j + 1;
    }
  }

  // ---- Counting -------------------------------------------------------------------------

  /** The cells that hold a label up to `k`. */
  ghost function TakenUpTo(seats: seq<uint>, k: nat): set<int> {
    set c | 0 <= c < |seats| && 0 < seats[c] <= k
  }

  ghost function Taken(seats: seq<uint>): set<int> {
    set c | 0 <= c < |seats| && seats[c] != 0
  }

  /** How many distinct seats each request names, added up. */
  ghost function DistinctSeats(cols: nat, granted: seq<seq<Seat>>): nat {
    if granted == [] then 0
    else DistinctSeats(cols, granted[..|granted| - 1]) + |Cells(cols, granted[|granted| - 1])|
  }

  lemma {:induction false} CountUpTo(e: Event, granted: seq<seq<Seat>>, k: nat)
    requires ValidEvent(e) && Labelled(e, granted) && k <= |granted|
    ensures |TakenUpTo(e.seats, k)| == DistinctSeats(e.cols, granted[..k])
  {
    if k > 0 {
      CountUpTo(e, granted, k - 1);
      assert granted[..k][..k - 1] == granted[..k - 1];
      TakenUpToNext(e, granted, k);
    } else {
      assert TakenUpTo(e.seats, k) == {};
    }
  }

  lemma TakenUpToNext(e: Event, granted: seq<seq<Seat>>, k: nat)
    requires ValidEvent(e) && Labelled(e, granted) && 0 < k <= |granted|
    ensures TakenUpTo(e.seats, k) == TakenUpTo(e.seats, k - 1) + Cells(e.cols, granted[k - 1])
    ensures TakenUpTo(e.seats, k - 1) !! Cells(e.cols, granted[k - 1])
  {
    var last := Cells(e.cols, granted[k - 1]);
    assert granted[k - 1] in granted;
    forall c | c in last ensures 0 <= c < |e.seats| { CellsInRange(e, granted[k - 1], c); }
  }

  /** Conservation: the taken cells are as many as the distinct seats granted. */
  lemma TakenSeatsCounted(e: Event, granted: seq<seq<Seat>>)
    requires ValidEvent(e) && Labelled(e, granted)
    ensures |Taken(e.seats)| == DistinctSeats(e.cols, granted)
  {
    CountUpTo(e, granted, |granted|);
    assert granted[..|granted|] == granted;
    assert TakenUpTo(e.seats, |granted|) == Taken(e.seats);
  }

  ghost predicate NoneEmpty(granted: seq<seq<Seat>>) {
    forall k :: 0 <= k < |granted| ==> granted[k] != []
  }

  lemma {:induction false} EachNamesASeat(cols: nat, granted: seq<seq<Seat>>)
    requires NoneEmpty(granted)
    ensures |granted| <= DistinctSeats(cols, granted)
  {
    if granted != [] {
      var req := granted[|granted| - 1];
      EachNamesASeat(cols, granted[..|granted| - 1]);
      assert req[0] in req;
      assert Index(cols, req[0]) in Cells(cols, req);
    }
  }

  lemma {:induction false} BoundedSetSize(s: set<int>, n: nat)
    requires forall c :: c in s ==> 0 <= c < n
    ensures |s| <= n
  {
    if n == 0 {
      forall c | c in s ensures false { }
    } else {
      BoundedSetSize(s - {n - 1}, n - 1);
    }
  }

  /** What the client guarantees (parser and `num_coords == 0` check): no request is empty. */
  ghost predicate NoEmptyRequests(calls: seq<Call>) {
    forall i :: 0 <= i < |calls| && calls[i].op.Reserve? ==> calls[i].op.req != []
  }

  lemma {:induction false} GrantedNonEmpty(calls: seq<Call>, id: uint)
    requires ValidCalls(calls) && NoEmptyRequests(calls)
    ensures NoneEmpty(Accepted(calls, id))
  {
    if calls != [] {
      var n := |calls| - 1;
      GrantedNonEmpty(calls[..n], id);
      hide LastReply;
      var before, granted, op := Accepted(calls[..n], id), Accepted(calls, id), calls[n].op;
      assert granted == before || (op.Reserve? && granted == before + [op.req]);
    }
  }

  lemma CounterBelowTaken(e: Event, granted: seq<seq<Seat>>)
    requires ValidEvent(e) && Labelled(e, granted)
    requires NoneEmpty(granted)
    ensures |granted| <= |Taken(e.seats)| <= e.rows * e.cols
  {
    EachNamesASeat(e.cols, granted);
    TakenSeatsCounted(e, granted);
    BoundedSetSize(Taken(e.seats), |e.seats|);
  }

  /** While a seat is free the counter is below the number of cells. */
  lemma RoomForOneMore(e: Event, granted: seq<seq<Seat>>, req: seq<Seat>)
    requires ValidEvent(e) && Labelled(e, granted) && Accepts(e, req) && req != []
    requires NoneEmpty(granted)
    ensures |granted| < e.rows * e.cols
  {
    AcceptedCellsAreFree(e, req);
    assert req[0] in req;
    var free := Index(e.cols, req[0]);
    assert free in Cells(e.cols, req);
    BoundedSetSize(Taken(e.seats) + {free}, |e.seats|);
    CounterBelowTaken(e, granted);
  }

  /**
   * The pigeonhole bound: with non-empty requests and a grid of at most UINT_MAX cells the counter
   * never passes the number of taken cells, so it never wraps and the labels tell the history.
   */
  lemma {:induction false} CounterNeverWraps(calls: seq<Call>, i: nat)
    requires ValidCalls(calls) && NoEmptyRequests(calls) && i < |StateAfter(calls)|
    requires StateAfter(calls)[i].rows * StateAfter(calls)[i].cols <= UINT_MAX
    ensures var e := StateAfter(calls)[i];
            var granted := Accepted(calls, e.id);
            && e.reservations == |granted| <= |Taken(e.seats)| <= e.rows * e.cols
            && Labelled(e, granted)
  {
    var n := |calls| - 1;
    var e := StateAfter(calls)[i];
    LastCallOnEvent(calls, i);
    if i < |StateAfter(calls[..n])| {
      CounterNeverWraps(calls[..n], i);
      var prior := StateAfter(calls[..n])[i];
      if e != prior {
        GrantedNonEmpty(calls[..n], e.id);
        RoomForOneMore(prior, Accepted(calls[..n], e.id), calls[n].op.req);
        GrantKeepsLabels(prior, Accepted(calls[..n], e.id), calls[n].op.req);
      }
    }
    GrantedNonEmpty(calls, e.id);
    CounterBelowTaken(e, Accepted(calls, e.id));
  }

  /** Under the same guarantee every id handed out so far labels some seat. */
  lemma EveryIdLabelsASeat(calls: seq<Call>, i: nat, k: nat)
    requires ValidCalls(calls) && NoEmptyRequests(calls) && i < |StateAfter(calls)|
    requires StateAfter(calls)[i].rows * StateAfter(calls)[i].cols <= UINT_MAX
    requires 1 <= k <= StateAfter(calls)[i].reservations
    ensures exists c :: 0 <= c < |StateAfter(calls)[i].seats| && StateAfter(calls)[i].seats[c] == k
  {
    CounterNeverWraps(calls, i);
    var e := StateAfter(calls)[i];
    var granted := Accepted(calls, e.id);
    GrantedNonEmpty(calls, e.id);
    LabelIsUsed(e, granted, k);
  }

  lemma LabelIsUsed(e: Event, granted: seq<seq<Seat>>, k: nat)
    requires ValidEvent(e) && Labelled(e, granted) && 1 <= k <= |granted| && granted[k - 1] != []
    ensures exists c :: 0 <= c < |e.seats| && e.seats[c] == k
  {
    var req := granted[k - 1];
    assert req in granted && req[0] in req;
    var c := Index(e.cols, req[0]);
    assert c in Cells(e.cols, req);
    CellsInRange(e, req, c);
    assert e.seats[c] == k;
  }

  // ---- Permanence -----------------------------------------------------------------------

  /** One call never changes a taken seat of an existing event. */
  lemma LastCallKeepsTaken(calls: seq<Call>, i: nat)
    requires ValidCalls(calls) && calls != [] && i < |StateAfter(calls[..|calls| - 1])|
    ensures i < |StateAfter(calls)|
    ensures var e, f := StateAfter(calls[..|calls| - 1])[i], StateAfter(calls)[i];
            && f.id == e.id && f.rows == e.rows && f.cols == e.cols && |f.seats| == |e.seats|
            && forall c :: 0 <= c < |e.seats| && e.seats[c] != 0 ==> f.seats[c] == e.seats[c]
  {
    var n := |calls| - 1;
    ApplyKeeps(StateAfter(calls[..n]), calls[n].op, calls[n].fails);
    LastCallOnEvent(calls, i);
    var before, after := StateAfter(calls[..n])[i], StateAfter(calls)[i];
    if before != after {
      AcceptedCellsAreFree(before, calls[n].op.req);
    }
  }

  /** Taken seats keep their label through any further calls, even if a counter wraps. */
  lemma {:induction false} TakenForever(calls: seq<Call>, more: seq<Call>, i: nat)
    requires ValidCalls(calls + more) && ValidCalls(calls) && i < |StateAfter(calls)|
    ensures i < |StateAfter(calls + more)|
    ensures var e, f := StateAfter(calls)[i], StateAfter(calls + more)[i];
            && f.id == e.id && f.rows == e.rows && f.cols == e.cols && |f.seats| == |e.seats|
            && forall c :: 0 <= c < |e.seats| && e.seats[c] != 0 ==> f.seats[c] == e.seats[c]
  {
    var all := calls + more;
    if more == [] {
      assert all == calls;
    } else {
      var n := |all| - 1;
      assert all[..n] == calls + more[..|more| - 1];
      TakenForever(calls, more[..|more| - 1], i);
      LastCallKeepsTaken(all, i);
    }
  }

  /** A request refused on an existing event is refused in every later state of every run. */
  lemma RefusedForever(calls: seq<Call>, more: seq<Call>, i: nat, req: seq<Seat>)
    requires ValidCalls(calls + more) && ValidCalls(calls) && i < |StateAfter(calls)|
    requires !Accepts(StateAfter(calls)[i], req)
    ensures i < |StateAfter(calls + more)| && StateAfter(calls + more)[i].id == StateAfter(calls)[i].id
    ensures !Accepts(StateAfter(calls + more)[i], req)
  {
    var e := StateAfter(calls)[i];
    var s :| s in req && !(InGrid(e.rows, e.cols, s) && CellOf(e, s) == 0);
    TakenForever(calls, more, i);
    if InGrid(e.rows, e.cols, s) {
      IndexInRange(e.rows, e.cols, s);
      assert CellOf(StateAfter(calls + more)[i], s) != 0;
    }
  }

  /** The same for whole calls. */
  lemma RefusedAgain(calls: seq<Call>, more: seq<Call>, op: Op, fails: bool, fails': bool)
    requires ValidCalls(calls + more) && ValidCalls(calls) && op.Reserve?
    requires Find(StateAfter(calls), op.id).Some? && Apply(StateAfter(calls), op, fails).1 == Code(1)
    ensures Apply(StateAfter(calls + more), op, fails').1 == Code(1)
  {
    hide StateAfter, Accepts;
    var e := Find(StateAfter(calls), op.id).value;
    RefusedForever(calls, more, e, op.req);
    FindIs(StateAfter(calls + more), op.id, e);
  }

  /** Exactly when the same seats can be sold twice: the counter is at UINT_MAX, so the new id is 0. */
  lemma SoldTwiceIff(e: Event, req: seq<Seat>)
    requires ValidEvent(e) && Accepts(e, req)
    ensures Accepts(Granted(e, req), req) <==> req == [] || e.reservations == UINT_MAX
  {
    var f := Granted(e, req);
    AcceptedCellsAreFree(e, req);
    forall s | s in req
      ensures InGrid(f.rows, f.cols, s) && CellOf(f, s) == f.reservations
    {
      IndexInRange(e.rows, e.cols, s);
      assert Index(e.cols, s) in Cells(e.cols, req);
    }
    if req != [] { assert req[0] in req; }
  }

  // ---- Only the set of seats matters, and order only up to ids -------------------------------

  /** Permuting or repeating the pairs of a request changes neither the answer nor the effect. */
  lemma OnlyTheSeatSetMatters(e: Event, req: seq<Seat>, other: seq<Seat>)
    requires ValidEvent(e) && (forall s :: s in req <==> s in other)
    ensures Accepts(e, req) <==> Accepts(e, other)
    ensures Granted(e, req) == Granted(e, other)
  {
    forall c ensures c in Cells(e.cols, req) <==> c in Cells(e.cols, other) {
      if c in Cells(e.cols, req) { var s :| s in req && c == Index(e.cols, s); assert s in other; }
      if c in Cells(e.cols, other) { var s :| s in other && c == Index(e.cols, s); assert s in req; }
    }
    assert Cells(e.cols, req) == Cells(e.cols, other);
  }

  /** Reservations on different events commute: same state, same two replies. */
  lemma DifferentEventsCommute(s: State, a: uint, p: seq<Seat>, b: uint, q: seq<Seat>)
    requires Valid(s) && a != b
    ensures var ab, ba := Apply(s, Reserve(a, p), false), Apply(s, Reserve(b, q), false);
            && Valid(ab.0) && Valid(ba.0)
            && Apply(ab.0, Reserve(b, q), false).0 == Apply(ba.0, Reserve(a, p), false).0
            && Apply(ab.0, Reserve(b, q), false).1 == ba.1
            && Apply(ba.0, Reserve(a, p), false).1 == ab.1
  {
    ReserveElsewhere(s, a, p, b);
    ReserveElsewhere(s, b, q, a);
  }

  lemma ReserveElsewhere(s: State, a: uint, p: seq<Seat>, b: uint)
    requires Valid(s) && a != b
    ensures var t := Apply(s, Reserve(a, p), false).0;
            && Valid(t) && |t| == |s| && Find(t, b) == Find(s, b)
            && (Find(s, b).Some? ==> t[Find(s, b).value] == s[Find(s, b).value])
            && (Find(s, a).None? ==> t == s)
            && (Find(s, a).Some? ==> t == s[Find(s, a).value := t[Find(s, a).value]])
  {
    ApplyValid(s, Reserve(a, p), false);
    ApplyKeeps(s, Reserve(a, p), false);
    var t := Apply(s, Reserve(a, p), false).0;
    if Find(s, b).Some? { FindIs(t, b, Find(s, b).value); }
  }

  /**
   * Unless the counter is about to wrap, two requests granted one after the other on one event are also
   * granted in the other order, and the two results differ only in which cells carry which of the two ids.
   */
  lemma GrantsCommuteUpToIds(e: Event, p: seq<Seat>, q: seq<Seat>)
    requires ValidEvent(e) && e.reservations != UINT_MAX
    requires Accepts(e, p) && Accepts(Granted(e, p), q)
    ensures Accepts(e, q) && Accepts(Granted(e, q), p)
    ensures Cells(e.cols, p) !! Cells(e.cols, q)
    ensures var first := NextId(e.reservations);
            var second := NextId(first);
            var pq, qp := Granted(Granted(e, p), q), Granted(Granted(e, q), p);
            && pq.reservations == qp.reservations == second
            && forall c :: 0 <= c < |e.seats| ==>
                 && (c in Cells(e.cols, p) ==> pq.seats[c] == first && qp.seats[c] == second)
                 && (c in Cells(e.cols, q) ==> pq.seats[c] == second && qp.seats[c] == first)
                 && (c !in Cells(e.cols, p) && c !in Cells(e.cols, q) ==> pq.seats[c] == qp.seats[c] == e.seats[c])
  {
    var f := Granted(e, p);
    AcceptedCellsAreFree(f, q);
    AcceptedCellsAreFree(e, p);
    forall s | s in q ensures InGrid(e.rows, e.cols, s) && CellOf(e, s) == 0 {
      IndexInRange(e.rows, e.cols, s);
      assert Index(e.cols, s) in Cells(e.cols, q);
    }
    var g := Granted(e, q);
    forall s | s in p ensures InGrid(g.rows, g.cols, s) && CellOf(g, s) == 0 {
      IndexInRange(e.rows, e.cols, s);
      assert CellOf(e, s) == 0;
      assert Index(e.cols, s) in Cells(e.cols, p);
    }
  }

  // ---- Runs that wrap a counter ------------------------------------------------------------------------------

  /** A run that creates an event and sells its first `n` seats one by one. */
  function SellOneByOne(id: uint, rows: size, cols: size, n: nat): seq<Call>
    requires n <= rows * cols
  {
    if n == 0 then [Call(Create(id, rows, cols), false)]
    else SellOneByOne(id, rows, cols, n - 1) + [Call(Reserve(id, [SeatAt(rows, cols, n - 1)]), false)]
  }

  /** A count as the counter shows it. */
  function Wrapped(k: nat): uint {
    k % (UINT_MAX + 1)
  }

  lemma WrappedNext(k: nat)
    ensures NextId(Wrapped(k)) == Wrapped(k + 1)
  {
  }

  /** The event after `n` sales. */
  function SoldOneByOne(id: uint, rows: size, cols: size, n: nat): Event {
    Event(id, rows, cols, Wrapped(n), seq(rows * cols, i requires 0 <= i => if i < n then Wrapped(i + 1) else 0))
  }

  lemma OneCell(rows: size, cols: size, n: nat)
    requires n < rows * cols
    ensures Cells(cols, [SeatAt(rows, cols, n)]) == {n}
  {
    var s := SeatAt(rows, cols, n);
    assert s in [s];
    forall c ensures c in Cells(cols, [s]) <==> c == n { if c == n { assert Index(cols, s) == c; } }
  }

  lemma NextSale(id: uint, rows: size, cols: size, n: nat)
    requires n < rows * cols <= SIZE_MAX
    ensures ValidEvent(SoldOneByOne(id, rows, cols, n))
    ensures var e, req := SoldOneByOne(id, rows, cols, n), [SeatAt(rows, cols, n)];
            Accepts(e, req) && Granted(e, req) == SoldOneByOne(id, rows, cols, n + 1)
  {
    hide Wrapped, NextId;
    var e, s := SoldOneByOne(id, rows, cols, n), SeatAt(rows, cols, n);
    assert CellOf(e, s) == 0;
    OneCell(rows, cols, n);
    WrappedNext(n);
    assert Mark(e.seats, {n}, Wrapped(n + 1)) == SoldOneByOne(id, rows, cols, n + 1).seats;
  }

  /** One more granted request on the only event of a run. */
  lemma OneMoreGrant(calls: seq<Call>, e: Event, req: seq<Seat>)
    requires ValidCalls(calls) && ValidEvent(e) && StateAfter(calls) == [e] && Accepts(e, req)
    ensures var more := calls + [Call(Reserve(e.id, req), false)];
            && ValidCalls(more) && StateAfter(more) == [Granted(e, req)]
            && Accepted(more, e.id) == Accepted(calls, e.id) + [req]
  {
    hide Granted, Accepts;
    var more := calls + [Call(Reserve(e.id, req), false)];
    assert more[..|calls|] == calls;
    assert Find([e], e.id) == Some(0);
    assert [e][0 := Granted(e, req)] == [Granted(e, req)];
  }

  lemma OneCreate(id: uint, rows: size, cols: size)
    requires rows * cols <= SIZE_MAX
    ensures var calls := [Call(Create(id, rows, cols), false)];
            && ValidCalls(calls) && Accepted(calls, id) == []
            && StateAfter(calls) == [SoldOneByOne(id, rows, cols, 0)]
  {
    var calls := [Call(Create(id, rows, cols), false)];
    assert calls[..0] == [];
    assert NewEvent(id, rows, cols) == SoldOneByOne(id, rows, cols, 0);
    hide SoldOneByOne, NewEvent;
  }

  /** Every number of sales up to the number of seats is reached, each request naming one seat. */
  lemma {:induction false} SalesAreGranted(id: uint, rows: size, cols: size, n: nat)
    requires n <= rows * cols <= SIZE_MAX
    ensures var calls := SellOneByOne(id, rows, cols, n);
            && ValidCalls(calls) && NoEmptyRequests(calls)
            && StateAfter(calls) == [SoldOneByOne(id, rows, cols, n)] && |Accepted(calls, id)| == n
  {
    hide SoldOneByOne, Accepted, StateAfter, Granted, Accepts, ValidEvent;
    if n == 0 {
      OneCreate(id, rows, cols);
    } else {
      SalesAreGranted(id, rows, cols, n - 1);
      NextSale(id, rows, cols, n - 1);
      SoldId(id, rows, cols, n - 1);
      var calls, e := SellOneByOne(id, rows, cols, n - 1), SoldOneByOne(id, rows, cols, n - 1);
      OneMoreGrant(calls, e, [SeatAt(rows, cols, n - 1)]);
    }
  }

  lemma SoldId(id: uint, rows: size, cols: size, n: nat)
    ensures SoldOneByOne(id, rows, cols, n).id == id
  {
  }

  /** The run has granted more requests on the event than its counter can count. */
  ghost predicate Wraps(calls: seq<Call>, id: uint, rows: size, cols: size) {
    && ValidCalls(calls) && NoEmptyRequests(calls)
    && (exists i :: 0 <= i < |StateAfter(calls)| && StateAfter(calls)[i].id == id
                    && StateAfter(calls)[i].rows == rows && StateAfter(calls)[i].cols == cols)
    && |Accepted(calls, id)| > UINT_MAX
  }

  /** The pigeonhole bound is sharp: some run wraps the counter of a grid exactly when it has 2^32 seats or more. */
  lemma WrapsIff(id: uint, rows: size, cols: size)
    requires rows * cols <= SIZE_MAX
    ensures (exists calls :: Wraps(calls, id, rows, cols)) <==> rows * cols > UINT_MAX
  {
    if rows * cols > UINT_MAX {
      var n := UINT_MAX + 1;
      SalesAreGranted(id, rows, cols, n);
      hide SellOneByOne;
      var calls := SellOneByOne(id, rows, cols, n);
      assert StateAfter(calls)[0] == SoldOneByOne(id, rows, cols, n);
      assert Wraps(calls, id, rows, cols);
    }
    forall calls | Wraps(calls, id, rows, cols) ensures rows * cols > UINT_MAX {
      var i :| 0 <= i < |StateAfter(calls)| && StateAfter(calls)[i].id == id
               && StateAfter(calls)[i].rows == rows && StateAfter(calls)[i].cols == cols;
      if rows * cols <= UINT_MAX { CounterNeverWraps(calls, i); }
    }
  }

  /**
   * A run that sells a seat twice: on a grid of 2^32 seats or more the sale number 2^32 labels its seat 0, the
   * mark of a free seat, and is granted again when it is made again.
   */
  lemma SoldTwice(id: uint, rows: size, cols: size)
    requires UINT_MAX < rows * cols <= SIZE_MAX
    ensures var calls := SellOneByOne(id, rows, cols, UINT_MAX + 1);
            && ValidCalls(calls) && NoEmptyRequests(calls) && |StateAfter(calls)| == 1
            && var e := StateAfter(calls)[0];
            && e.reservations == 0 && !Labelled(e, Accepted(calls, id))
            && calls[|calls| - 1].op == Reserve(id, [SeatAt(rows, cols, UINT_MAX)])
            && Accepts(e, [SeatAt(rows, cols, UINT_MAX)])
  {
    var n := UINT_MAX + 1;
    SalesAreGranted(id, rows, cols, n);
    var e := SoldOneByOne(id, rows, cols, n);
    LabelledFits(e, Accepted(SellOneByOne(id, rows, cols, n), id));
    assert CellOf(e, SeatAt(rows, cols, UINT_MAX)) == e.seats[UINT_MAX] == 0;
  }

  /** A client can create such a grid. */
  lemma ClientGridWraps(id: uint)
    ensures exists calls :: Wraps(calls, id, 65536, 65536)
  {
    WrapsIff(id, 65536, 65536);
  }
}
