/** No deadlock, no stuck step, and a measure that every step inside a call decreases. */
module Progress {
  import opened Common
  import opened Seats
  import opened Ems
  import opened Machine
  import opened Locks
  import opened Book
  import opened Refinement
  import opened Concurrency

  /** Waiting for a lock that another thread holds is the only way not to move. */
  predicate Blocked(s: World, t: nat)
    requires t < |s.threads|
  {
    var th := s.threads[t];
    match th.msg
    case Waiting => s.printer.Some?
    case Printing => false
    case Silent =>
      match th.pc
      case Idle => true
      case Enter => s.writer.Some? || (th.op.Create? && s.readers != {})
      case WantEvent(ev) => ev < |s.owners| && s.owners[ev].Some?
      case _ => false
  }

  lemma CreateMoves(s: World, t: nat, abs: State)
    requires LocksAgree(s) && DataOk(s, abs) && t < |s.threads| && s.threads[t].msg.Silent?
    requires s.threads[t].op.Create? && Pending(s.threads[t].pc) && !Blocked(s, t)
    ensures CreateStep(s, t, Go).Some?
  {
    var th := s.threads[t];
    assert ThreadOk(abs, th);
    assert SectionOf(th.pc) == ListWrite || th.pc.Enter?;
    if SectionOf(th.pc) == ListWrite {
      assert Writer(s) == th;
      if Quiet(th.pc) { HeldList(s, t, abs); }
      if th.pc.CreateWalk? { HopIsSearch(s, abs, th.op.id, th.pc.cur, th.pc.to); }
    }
  }

  lemma LookupMoves(s: World, t: nat, abs: State)
    requires LocksAgree(s) && DataOk(s, abs) && t < |s.threads| && s.threads[t].msg.Silent?
    requires s.threads[t].op.Reserve? || s.threads[t].op.Show?
    requires Pending(s.threads[t].pc) && !SectionOf(s.threads[t].pc).EventMutex? && !Blocked(s, t)
    ensures LookupStep(s, t).Some?
  {
    var th := s.threads[t];
    assert ThreadOk(abs, th) && PcFitsOp(th);
    if th.pc.LookupWalk? {
      HeldList(s, t, abs);
      HopIsSearch(s, abs, th.op.id, th.pc.cur, th.pc.to);
    }
  }

  lemma ListMoves(s: World, t: nat, abs: State)
    requires LocksAgree(s) && DataOk(s, abs) && t < |s.threads| && s.threads[t].msg.Silent?
    requires s.threads[t].op.ListEvents? && Pending(s.threads[t].pc) && !Blocked(s, t)
    ensures ListStep(s, t).Some?
  {
    var th := s.threads[t];
    assert ThreadOk(abs, th) && PcFitsOp(th);
    if InListing(th.pc) { HeldList(s, t, abs); }
  }

  /** Under the mutex no access leaves the seat array: both loops of ems_reserve and the send loop go on. */
  lemma EventMoves(s: World, t: nat, ev: nat, abs: State)
    requires LocksAgree(s) && DataOk(s, abs) && t < |s.threads| && s.threads[t].msg.Silent?
    requires SectionOf(s.threads[t].pc) == EventMutex(ev)
    ensures EventStep(s, t, ev).Some?
  {
    var th := s.threads[t];
    assert ThreadOk(abs, th) && PcFitsOp(th);
    assert ev < |abs|;
    EventShapes(s, abs, ev);
    if th.pc.WriteSeats? && th.pc.i < |th.op.req| {
      assert EventOk(s, abs, ev);
      WriteSeatStep(s, t, ev, abs);
    }
  }

  lemma BodyDispatch(s: World, t: nat, c: Choice)
    requires t < |s.threads| && Pending(s.threads[t].pc)
    ensures match SectionOf(s.threads[t].pc)
            case EventMutex(ev) => BodyStep(s, t, c) == EventStep(s, t, ev)
            case _ =>
              match s.threads[t].op
              case Create(_, _, _) => BodyStep(s, t, c) == CreateStep(s, t, c)
              case Reserve(_, _) => BodyStep(s, t, c) == LookupStep(s, t)
              case Show(_) => BodyStep(s, t, c) == LookupStep(s, t)
              case ListEvents => BodyStep(s, t, c) == ListStep(s, t)
  {
    hide CreateStep, LookupStep, ListStep, EventStep;
  }

  lemma PendingMoves(s: World, t: nat, abs: State)
    requires LocksAgree(s) && DataOk(s, abs) && t < |s.threads| && s.threads[t].msg.Silent?
    requires Pending(s.threads[t].pc) && !Blocked(s, t)
    ensures BodyStep(s, t, Go).Some?
  {
    hide LocksAgree, DataOk, CreateStep, LookupStep, ListStep, EventStep, BodyStep, Blocked;
    BodyDispatch(s, t, Go);
    match SectionOf(s.threads[t].pc)
    case EventMutex(ev) => EventMoves(s, t, ev, abs);
    case _ =>
      match s.threads[t].op
      case Create(_, _, _) => CreateMoves(s, t, abs);
      case Reserve(_, _) => LookupMoves(s, t, abs);
      case Show(_) => LookupMoves(s, t, abs);
      case ListEvents => ListMoves(s, t, abs);
  }

  /** A thread that is not blocked can take a step: nothing is ever stuck on a bad memory access. */
  lemma UnblockedMoves(s: World, t: nat)
    requires Inv(s) && t < |s.threads| && !Blocked(s, t)
    ensures Step(s, t, Go).Some?
  {
    UnfoldInv(s);
    if s.threads[t].msg.Silent? && Pending(s.threads[t].pc) {
      hide Inv, LocksAgree, DataOk, BodyStep;
      PendingMoves(s, t, Abs(s.log));
    } else {
      hide Inv, LocksAgree, DataOk;
    }
  }

  lemma UnfoldInv(s: World)
    requires Inv(s)
    ensures LocksAgree(s) && BookKept(s) && Legal(s.log) && DataOk(s, Abs(s.log))
  {
  }

  /** While a call is unfinished some thread is not blocked. */
  lemma SomeoneIsUnblocked(s: World, t: nat)
    requires LocksAgree(s) && t < |s.threads| && !s.threads[t].pc.Idle?
    ensures exists u :: 0 <= u < |s.threads| && !Blocked(s, u)
  {
    if Blocked(s, t) {
      var th := s.threads[t];
      if s.printer.Some? {
        assert !Blocked(s, s.printer.value);
      } else if s.writer.Some? {
        assert !Blocked(s, s.writer.value);
      } else if th.pc.Enter? {
        var r :| r in s.readers;
        assert !Blocked(s, r);
      } else {
        assert !Blocked(s, s.owners[th.pc.ev].value);
      }
    }
  }

  /** Deadlock freedom: in every reachable state with an unfinished call some thread can step. */
  lemma DeadlockFree(run: seq<World>, i: nat, t: nat)
    requires IsRun(run) && i < |run| && t < |run[i].threads| && !run[i].threads[t].pc.Idle?
    ensures exists u: nat :: u < |run[i].threads| && Step(run[i], u, Go).Some?
  {
    RunKeepsInv(run, i);
    UnfoldInv(run[i]);
    hide IsRun, Inv, Step, DataOk, BookKept, Legal;
    SomeoneIsUnblocked(run[i], t);
    var u :| 0 <= u < |run[i].threads| && !Blocked(run[i], u);
    UnblockedMoves(run[i], u);
  }

  // ---- Termination -------------------------------------------------------------------------------------

  /** A create call that may still allocate: it makes later lists longer and adds seats to scan. */
  predicate WillAllocate(th: Thread) {
    th.op.Create? && (th.pc.Enter? || th.pc.CreateStart? || th.pc.CreateWalk? || th.pc.CreateAbsent?)
  }

  function CellCount(e: Event): nat {
    e.rows * e.cols
  }

  function ToAllocate(th: Thread): nat {
    if WillAllocate(th) then th.op.rows * th.op.cols else 0
  }

  function CellsOf(events: seq<Event>): nat {
    if events == [] then 0 else CellsOf(events[..|events| - 1]) + CellCount(events[|events| - 1])
  }

  function NewNodes(threads: seq<Thread>): nat {
    if threads == [] then 0
    else NewNodes(threads[..|threads| - 1]) + if WillAllocate(threads[|threads| - 1]) then 1 else 0
  }

  function NewCells(threads: seq<Thread>): nat {
    if threads == [] then 0
    else NewCells(threads[..|threads| - 1]) + ToAllocate(threads[|threads| - 1])
  }

  /** Bounds on the length of any list still to be walked and on any seat array still to be scanned. */
  function ListBound(s: World): nat { |s.nodes| + NewNodes(s.threads) }

  function SeatBound(s: World): nat { CellsOf(s.events) + NewCells(s.threads) }

  /** The turns left in the nested scan of ems_reserve, with `m` pairs and at most `cells` cells. */
  function ScanLeft(cells: int, m: nat, i: nat, j: nat): int {
    (cells - i) * (m + 1) + m - j
  }

  function ScanAll(cells: int, m: nat): int {
    cells * (m + 1) + m
  }

  /** How many steps of the call itself, not counting messages, can still follow. */
  function StepsLeft(th: Thread, list: nat, cells: nat): int {
    var m := if th.op.Reserve? then |th.op.req| else 0;
    match th.pc
    case Idle => 0
    case Return(_) => 1
    case CreateExists => 2
    case CreateFailed => 2
    case CreateLinked(_) => 2
    case CreateLinkTail(_) => 3
    case CreateLink(_) => 4
    case CreateAbsent => 5
    case CreateWalk(cur, _) => 6 + list - cur
    case CreateStart => 7 + list
    case ListEmpty => 2
    case ListSent(_, _) => 2
    case SendIds(cur, _, _, _) => 3 + list - cur
    case CountNodes(cur, _, _) => 4 + list + list - cur
    case ListStart => 5 + list + list
    case LookupMiss => 2
    case Refused(_) => 2
    case WriteSeats(_, i, _) => 2 + m - i
    case TakeId(_) => 3 + m
    case CheckSeats(_, i, j) => 4 + m + ScanLeft(cells, m, i, j)
    case CheckBounds(_, i) => 5 + m + ScanAll(cells, m) + m - i
    case SendSeats(_, sent) => 2 + cells - |sent|
    case WantEvent(_) => 6 + m + ScanAll(cells, m) + m + cells
    case LookupHit(_) => 7 + m + ScanAll(cells, m) + m + cells
    case LookupWalk(cur, _) => 8 + m + ScanAll(cells, m) + m + cells + list - cur
    case LookupStart => 9 + m + ScanAll(cells, m) + m + cells + list
    case Enter => 10 + m + ScanAll(cells, m) + m + cells + list + list
  }

  function MessageLeft(msg: Message): nat {
    match msg
    case Silent => 0
    case Waiting => 2
    case Printing => 1
  }

  function ThreadMeasure(th: Thread, list: nat, cells: nat): int {
    3 * StepsLeft(th, list, cells) + MessageLeft(th.msg)
  }

  function SumMeasure(threads: seq<Thread>, list: nat, cells: nat): int {
    if threads == [] then 0
    else SumMeasure(threads[..|threads| - 1], list, cells) + ThreadMeasure(threads[|threads| - 1], list, cells)
  }

  function Measure(s: World): int {
    SumMeasure(s.threads, ListBound(s), SeatBound(s))
  }

  lemma NewNodesUpdate(threads: seq<Thread>, t: nat, th: Thread)
    requires t < |threads|
    ensures NewNodes(threads[t := th]) + (if WillAllocate(threads[t]) then 1 else 0)
         == NewNodes(threads) + (if WillAllocate(th) then 1 else 0)
  {
    var n := |threads| - 1;
    if t < n {
      NewNodesUpdate(threads[..n], t, th);
      assert threads[t := th][..n] == threads[..n][t := th];
    } else {
      assert threads[t := th][..n] == threads[..n];
    }
  }

  lemma NewCellsUpdate(threads: seq<Thread>, t: nat, th: Thread)
    requires t < |threads|
    ensures NewCells(threads[t := th]) + ToAllocate(threads[t]) == NewCells(threads) + ToAllocate(th)
  {
    var n := |threads| - 1;
    if t < n {
      NewCellsUpdate(threads[..n], t, th);
      assert threads[t := th][..n] == threads[..n][t := th];
    } else {
      assert threads[t := th][..n] == threads[..n];
    }
  }

  lemma SumUpdate(threads: seq<Thread>, t: nat, th: Thread, list: nat, cells: nat)
    requires t < |threads|
    ensures SumMeasure(threads[t := th], list, cells) + ThreadMeasure(threads[t], list, cells)
         == SumMeasure(threads, list, cells) + ThreadMeasure(th, list, cells)
  {
    hide ThreadMeasure;
    var n := |threads| - 1;
    if t < n {
      SumUpdate(threads[..n], t, th, list, cells);
      assert threads[t := th][..n] == threads[..n][t := th];
    } else {
      assert threads[t := th][..n] == threads[..n];
    }
  }

  lemma ScanLeftMonotonic(cells: int, cells': int, m: nat, i: nat, j: nat)
    requires cells' <= cells
    ensures ScanLeft(cells', m, i, j) <= ScanLeft(cells, m, i, j) && ScanAll(cells', m) <= ScanAll(cells, m)
  {
    MulMonotonic(cells' - i, cells - i, m + 1);
    MulMonotonic(cells', cells, m + 1);
  }

  lemma ThreadMeasureMonotonic(th: Thread, list: nat, list': nat, cells: nat, cells': nat)
    requires list' <= list && cells' <= cells
    ensures ThreadMeasure(th, list', cells') <= ThreadMeasure(th, list, cells)
  {
    hide ScanLeft, ScanAll;
    var m := if th.op.Reserve? then |th.op.req| else 0;
    var i, j := if th.pc.CheckSeats? then th.pc.i else 0, if th.pc.CheckSeats? then th.pc.j else 0;
    ScanLeftMonotonic(cells, cells', m, i, j);
  }

  lemma SumMonotonic(threads: seq<Thread>, list: nat, list': nat, cells: nat, cells': nat)
    requires list' <= list && cells' <= cells
    ensures SumMeasure(threads, list', cells') <= SumMeasure(threads, list, cells)
  {
    hide ThreadMeasure;
    if threads != [] {
      SumMonotonic(threads[..|threads| - 1], list, list', cells, cells');
      ThreadMeasureMonotonic(threads[|threads| - 1], list, list', cells, cells');
    }
  }

  lemma CellsOfAtLeast(events: seq<Event>, i: nat)
    requires i < |events|
    ensures CellCount(events[i]) <= CellsOf(events)
  {
    if i < |events| - 1 { CellsOfAtLeast(events[..|events| - 1], i); }
  }

  lemma CellsOfSameShape(events: seq<Event>, i: nat, e: Event)
    requires i < |events| && e.rows == events[i].rows && e.cols == events[i].cols
    ensures CellsOf(events[i := e]) == CellsOf(events)
  {
    var n := |events| - 1;
    if i < n {
      CellsOfSameShape(events[..n], i, e);
      assert events[i := e][..n] == events[..n][i := e];
    } else {
      assert events[i := e][..n] == events[..n];
    }
  }

  // ---- One step decreases the measure --------------------------------------------------------------------

  /** The facts about a thread's locals that keep its count of steps sensible. */
  ghost predicate InBounds(th: Thread, list: nat, cells: nat) {
    match th.pc
    case CreateWalk(cur, _) => cur < list
    case LookupWalk(cur, _) => cur < list
    case CountNodes(cur, _, _) => cur < list
    case SendIds(cur, _, _, _) => cur < list
    case CheckBounds(_, i) => th.op.Reserve? && i <= |th.op.req|
    case CheckSeats(_, i, j) => th.op.Reserve? && i <= cells && j <= |th.op.req|
    case WriteSeats(_, i, _) => th.op.Reserve? && i <= |th.op.req|
    case SendSeats(_, sent) => |sent| <= cells
    case _ => true
  }

  lemma ThreadInBounds(s: World, t: nat)
    requires Inv(s) && t < |s.threads|
    ensures InBounds(s.threads[t], ListBound(s), SeatBound(s))
  {
    UnfoldInv(s);
    var abs, th := Abs(s.log), s.threads[t];
    assert ThreadOk(abs, th);
    assert |abs| <= |s.nodes|;
    if SectionOf(th.pc).EventMutex? {
      EventShapes(s, abs, th.pc.ev);
      CellsOfAtLeast(s.events, th.pc.ev);
    }
  }

  lemma MeasureNonNegative(th: Thread, list: nat, cells: nat)
    requires InBounds(th, list, cells)
    ensures ThreadMeasure(th, list, cells) >= 0
  {
    var m := if th.op.Reserve? then |th.op.req| else 0;
    MulMonotonic(0, cells, m + 1);
    if th.pc.CheckSeats? { MulMonotonic(th.pc.i, cells, m + 1); MulMonotonic(0, cells - th.pc.i, m + 1); }
  }

  /** A step that is not an invocation. */
  ghost predicate Works(s: World, s': World) {
    exists t: nat, c: Choice :: t < |s.threads| && !c.Invoke? && Step(s, t, c) == Some(s')
  }

  lemma ScanTurnsDown(cells: int, m: nat, i: nat, j: nat)
    requires i < cells && j <= m
    ensures ScanLeft(cells, m, i, j) - 1 >= ScanLeft(cells, m, i + 1, 0)
    ensures ScanLeft(cells, m, i, j) - 1 == ScanLeft(cells, m, i, j + 1)
    ensures ScanLeft(cells, m, i, j) >= 1
  {
    assert (cells - i) * (m + 1) == (cells - i - 1) * (m + 1) + m + 1;
    MulMonotonic(0, cells - i - 1, m + 1);
  }

  /** The stepping thread goes down; a message costs fewer steps than the call step that starts it saves. */
  ghost predicate GoesDown(s: World, t: nat, s': World, list: nat, cells: nat) {
    && t < |s.threads| && t < |s'.threads|
    && ThreadMeasure(s'.threads[t], list, cells) < ThreadMeasure(s.threads[t], list, cells)
  }

  /** A walk along the list goes to the next node. */
  ghost predicate Hops(s: World, t: nat, s': World) {
    && t < |s.threads| && t < |s'.threads|
    && var pc, pc' := s.threads[t].pc, s'.threads[t].pc;
    && (pc.CreateWalk? && pc'.CreateWalk? ==> pc'.cur == pc.cur + 1)
    && (pc.LookupWalk? && pc'.LookupWalk? ==> pc'.cur == pc.cur + 1)
    && (pc.CountNodes? && pc'.CountNodes? ==> pc'.cur == pc.cur + 1)
    && (pc.SendIds? && pc'.SendIds? ==> pc'.cur == pc.cur + 1)
  }

  lemma CreateBeginGoesDown(s: World, t: nat, c: Choice, list: nat, cells: nat)
    requires t < |s.threads| && s.threads[t].op.Create? && s.threads[t].msg.Silent? && CreateBegins(s.threads[t].pc)
    requires InBounds(s.threads[t], list, cells) && CreateStep(s, t, c).Some?
    requires Hops(s, t, CreateStep(s, t, c).value)
    ensures GoesDown(s, t, CreateStep(s, t, c).value, list, cells)
  {
    MulMonotonic(0, cells, 1);
    assert ScanAll(cells, 0) >= 0;
    hide ScanLeft, ScanAll;
  }

  lemma CreateEndGoesDown(s: World, t: nat, c: Choice, list: nat, cells: nat)
    requires t < |s.threads| && s.threads[t].op.Create? && s.threads[t].msg.Silent? && !CreateBegins(s.threads[t].pc)
    requires CreateStep(s, t, c).Some?
    ensures GoesDown(s, t, CreateStep(s, t, c).value, list, cells)
  {
    hide ScanLeft, ScanAll;
  }

  lemma LookupGoesDown(s: World, t: nat, list: nat, cells: nat)
    requires t < |s.threads| && (s.threads[t].op.Reserve? || s.threads[t].op.Show?) && s.threads[t].msg.Silent?
    requires InBounds(s.threads[t], list, cells) && LookupStep(s, t).Some?
    requires Hops(s, t, LookupStep(s, t).value)
    ensures GoesDown(s, t, LookupStep(s, t).value, list, cells)
  {
    var m := if s.threads[t].op.Reserve? then |s.threads[t].op.req| else 0;
    MulMonotonic(0, cells, m + 1);
    assert ScanAll(cells, m) >= 0;
    hide ScanLeft, ScanAll;
  }

  lemma ListGoesDown(s: World, t: nat, list: nat, cells: nat)
    requires t < |s.threads| && s.threads[t].op.ListEvents? && s.threads[t].msg.Silent?
    requires InBounds(s.threads[t], list, cells) && ListStep(s, t).Some?
    requires Hops(s, t, ListStep(s, t).value)
    ensures GoesDown(s, t, ListStep(s, t).value, list, cells)
  {
    MulMonotonic(0, cells, 1);
    assert ScanAll(cells, 0) >= 0;
    hide ScanLeft, ScanAll;
  }

  lemma ShowGoesDown(s: World, t: nat, ev: nat, list: nat, cells: nat)
    requires t < |s.threads| && s.threads[t].msg.Silent? && s.threads[t].pc.SendSeats? && s.threads[t].op.Show?
    requires InBounds(s.threads[t], list, cells) && EventStep(s, t, ev).Some?
    ensures GoesDown(s, t, EventStep(s, t, ev).value, list, cells)
  {
    hide ScanLeft, ScanAll;
  }

  lemma ReserveGoesDown(s: World, t: nat, ev: nat, list: nat, cells: nat)
    requires t < |s.threads| && s.threads[t].msg.Silent? && s.threads[t].op.Reserve?
    requires SectionOf(s.threads[t].pc) == EventMutex(ev) && ev < |s.events| && CellCount(s.events[ev]) <= cells
    requires InBounds(s.threads[t], list, cells) && EventStep(s, t, ev).Some?
    ensures GoesDown(s, t, EventStep(s, t, ev).value, list, cells)
  {
    var th := s.threads[t];
    var m := |th.op.req|;
    assert ScanLeft(cells, m, 0, 0) == ScanAll(cells, m);
    MulMonotonic(0, cells, m + 1);
    assert ScanAll(cells, m) >= 0;
    if th.pc.CheckSeats? {
      if th.pc.i < cells {
        ScanTurnsDown(cells, m, th.pc.i, th.pc.j);
      }
      assert ScanLeft(cells, m, cells, th.pc.j) == m - th.pc.j;
    }
    hide ScanLeft, ScanAll;
  }

  lemma BodyGoesDown(s: World, t: nat, c: Choice, list: nat, cells: nat)
    requires LocksAgree(s) && t < |s.threads| && s.threads[t].msg.Silent? && Pending(s.threads[t].pc)
    requires SectionOf(s.threads[t].pc).EventMutex? ==>
               CellCount(s.events[SectionOf(s.threads[t].pc).ev]) <= cells
    requires InBounds(s.threads[t], list, cells) && BodyStep(s, t, c).Some?
    requires Hops(s, t, BodyStep(s, t, c).value)
    ensures GoesDown(s, t, BodyStep(s, t, c).value, list, cells)
  {
    assert PcFitsOp(s.threads[t]);
    hide GoesDown, InBounds, Hops, CreateStep, LookupStep, ListStep, EventStep, LocksAgree;
    match SectionOf(s.threads[t].pc)
    case EventMutex(ev) =>
      if s.threads[t].pc.SendSeats? { ShowGoesDown(s, t, ev, list, cells); }
      else { ReserveGoesDown(s, t, ev, list, cells); }
    case _ =>
      match s.threads[t].op
      case Create(_, _, _) =>
        if CreateBegins(s.threads[t].pc) { CreateBeginGoesDown(s, t, c, list, cells); }
        else { CreateEndGoesDown(s, t, c, list, cells); }
      case Reserve(_, _) => LookupGoesDown(s, t, list, cells);
      case Show(_) => LookupGoesDown(s, t, list, cells);
      case ListEvents => ListGoesDown(s, t, list, cells);
  }

  lemma ListHops(s: World, t: nat, abs: State)
    requires LocksAgree(s) && DataOk(s, abs) && t < |s.threads| && s.threads[t].op.ListEvents?
    requires ListStep(s, t).Some?
    ensures Hops(s, t, ListStep(s, t).value)
  {
    assert ThreadOk(abs, s.threads[t]);
    if InListing(s.threads[t].pc) { HeldList(s, t, abs); }
  }

  lemma CreateHops(s: World, t: nat, c: Choice, abs: State)
    requires LocksAgree(s) && DataOk(s, abs) && t < |s.threads| && s.threads[t].op.Create?
    requires CreateStep(s, t, c).Some?
    ensures Hops(s, t, CreateStep(s, t, c).value)
  {
    var th := s.threads[t];
    assert ThreadOk(abs, th);
    if th.pc.CreateWalk? {
      HeldList(s, t, abs);
      HopIsSearch(s, abs, th.op.id, th.pc.cur, th.pc.to);
    }
    hide HeapOk, EventsOk, ThreadOk, LocksAgree;
  }

  lemma LookupHops(s: World, t: nat, abs: State)
    requires LocksAgree(s) && DataOk(s, abs) && t < |s.threads| && (s.threads[t].op.Reserve? || s.threads[t].op.Show?)
    requires LookupStep(s, t).Some?
    ensures Hops(s, t, LookupStep(s, t).value)
  {
    var th := s.threads[t];
    assert ThreadOk(abs, th);
    if th.pc.LookupWalk? {
      HeldList(s, t, abs);
      HopIsSearch(s, abs, th.op.id, th.pc.cur, th.pc.to);
    }
    hide HeapOk, EventsOk, ThreadOk, LocksAgree;
  }

  lemma BodyHops(s: World, t: nat, c: Choice, abs: State)
    requires LocksAgree(s) && DataOk(s, abs) && t < |s.threads| && Pending(s.threads[t].pc) && BodyStep(s, t, c).Some?
    ensures Hops(s, t, BodyStep(s, t, c).value)
  {
    if !SectionOf(s.threads[t].pc).EventMutex? {
      hide LocksAgree, DataOk, Hops, ListStep, CreateStep, LookupStep;
      match s.threads[t].op
      case Create(_, _, _) => CreateHops(s, t, c, abs);
      case Reserve(_, _) => LookupHops(s, t, abs);
      case Show(_) => LookupHops(s, t, abs);
      case ListEvents => ListHops(s, t, abs);
    }
  }

  // ---- The bounds never grow while calls are worked off ---------------------------------------------------

  /** Only an allocation changes what the bounds count, and it moves one unit from pending to done. */
  ghost predicate BoundEffect(s: World, t: nat, s': World)
    requires t < |s.threads|
  {
    && |s'.threads| == |s.threads| && s'.threads == s.threads[t := s'.threads[t]]
    && var th, th' := s.threads[t], s'.threads[t];
    || (WillAllocate(th) && !WillAllocate(th') && |s'.nodes| == |s.nodes| + 1
        && |s'.events| == |s.events| + 1 && s'.events[..|s.events|] == s.events
        && CellCount(s'.events[|s.events|]) == ToAllocate(th))
    || ((WillAllocate(th') ==> WillAllocate(th) && th'.op == th.op) && |s'.nodes| == |s.nodes|
        && (s'.events == s.events
            || exists i: nat, e :: i < |s.events| && s'.events == s.events[i := e]
                 && e.rows == s.events[i].rows && e.cols == s.events[i].cols))
  }

  lemma BoundsShrink(s: World, t: nat, s': World)
    requires t < |s.threads| && BoundEffect(s, t, s')
    ensures ListBound(s') <= ListBound(s) && SeatBound(s') <= SeatBound(s)
  {
    NewNodesUpdate(s.threads, t, s'.threads[t]);
    NewCellsUpdate(s.threads, t, s'.threads[t]);
    if s'.events != s.events && |s'.events| == |s.events| {
      var i: nat, e :| i < |s.events| && s'.events == s.events[i := e]
                       && e.rows == s.events[i].rows && e.cols == s.events[i].cols;
      CellsOfSameShape(s.events, i, e);
    }
  }

  lemma EventBoundEffect(s: World, t: nat, ev: nat)
    requires t < |s.threads| && EventStep(s, t, ev).Some? && SectionOf(s.threads[t].pc) == EventMutex(ev)
    ensures BoundEffect(s, t, EventStep(s, t, ev).value)
  {
    var s' := EventStep(s, t, ev).value;
    if s'.events != s.events {
      assert s'.events == s.events[ev := s'.events[ev]];
    }
  }

  lemma CreateBoundEffect(s: World, t: nat, c: Choice)
    requires t < |s.threads| && s.threads[t].op.Create? && CreateStep(s, t, c).Some?
    ensures BoundEffect(s, t, CreateStep(s, t, c).value)
  {
  }

  lemma BodyBoundEffect(s: World, t: nat, c: Choice)
    requires t < |s.threads| && Pending(s.threads[t].pc) && PcFitsOp(s.threads[t]) && BodyStep(s, t, c).Some?
    ensures BoundEffect(s, t, BodyStep(s, t, c).value)
  {
    hide CreateStep, EventStep;
    match SectionOf(s.threads[t].pc)
    case EventMutex(ev) => EventBoundEffect(s, t, ev);
    case _ =>
      if s.threads[t].op.Create? { CreateBoundEffect(s, t, c); }
  }

  lemma OutsideBoundEffect(s: World, t: nat, c: Choice)
    requires t < |s.threads| && Step(s, t, c).Some? && !c.Invoke?
    requires !s.threads[t].msg.Silent? || !Pending(s.threads[t].pc)
    ensures BoundEffect(s, t, Step(s, t, c).value)
  {
  }

  lemma WorkBoundEffect(s: World, t: nat, c: Choice)
    requires Inv(s) && t < |s.threads| && Step(s, t, c).Some? && !c.Invoke?
    ensures BoundEffect(s, t, Step(s, t, c).value)
  {
    UnfoldInv(s);
    assert PcFitsOp(s.threads[t]);
    hide Inv, LocksAgree, BookKept, DataOk, Legal, BodyStep, BoundEffect;
    if s.threads[t].msg.Silent? && Pending(s.threads[t].pc) {
      BodyBoundEffect(s, t, c);
    } else {
      OutsideBoundEffect(s, t, c);
    }
  }

  lemma BodyWorkGoesDown(s: World, t: nat, c: Choice)
    requires Inv(s) && t < |s.threads| && s.threads[t].msg.Silent? && Pending(s.threads[t].pc)
    requires BodyStep(s, t, c).Some?
    ensures GoesDown(s, t, BodyStep(s, t, c).value, ListBound(s), SeatBound(s))
  {
    UnfoldInv(s);
    ThreadInBounds(s, t);
    if SectionOf(s.threads[t].pc).EventMutex? {
      CellsOfAtLeast(s.events, SectionOf(s.threads[t].pc).ev);
    }
    hide Inv, BookKept, DataOk, Legal, BodyStep, GoesDown, InBounds, Hops, ListBound, LocksAgree;
    BodyHops(s, t, c, Abs(s.log));
    BodyGoesDown(s, t, c, ListBound(s), SeatBound(s));
  }

  lemma WorkGoesDown(s: World, t: nat, c: Choice)
    requires Inv(s) && t < |s.threads| && Step(s, t, c).Some? && !c.Invoke?
    ensures GoesDown(s, t, Step(s, t, c).value, ListBound(s), SeatBound(s))
  {
    hide Inv, BodyStep, GoesDown, ListBound, SeatBound;
    if s.threads[t].msg.Silent? && Pending(s.threads[t].pc) {
      BodyWorkGoesDown(s, t, c);
    } else {
      OutsideGoesDown(s, t, c, ListBound(s), SeatBound(s));
    }
  }

  lemma OutsideGoesDown(s: World, t: nat, c: Choice, list: nat, cells: nat)
    requires t < |s.threads| && Step(s, t, c).Some? && !c.Invoke?
    requires !s.threads[t].msg.Silent? || !Pending(s.threads[t].pc)
    ensures GoesDown(s, t, Step(s, t, c).value, list, cells)
  {
    hide Step, BodyStep, StepsLeft;
    OutsideStep(s, t, c);
    var th, th' := s.threads[t], Step(s, t, c).value.threads[t];
    if !th.msg.Silent? {
      SameStepsLeft(th, th', list, cells);
    } else {
      ReturnIsLast(th, th', list, cells);
    }
  }

  /** Outside a call's own steps a thread prints its message or returns. */
  lemma OutsideStep(s: World, t: nat, c: Choice)
    requires t < |s.threads| && Step(s, t, c).Some? && !c.Invoke?
    requires !s.threads[t].msg.Silent? || !Pending(s.threads[t].pc)
    ensures t < |Step(s, t, c).value.threads|
    ensures var th, th' := s.threads[t], Step(s, t, c).value.threads[t];
            if th.msg.Silent? then th.pc.Return? && th'.pc.Idle? && th'.msg.Silent?
            else th'.pc == th.pc && th'.op == th.op && MessageLeft(th'.msg) < MessageLeft(th.msg)
  {
  }

  lemma SameStepsLeft(th: Thread, th': Thread, list: nat, cells: nat)
    requires th'.pc == th.pc && th'.op == th.op
    ensures StepsLeft(th', list, cells) == StepsLeft(th, list, cells)
  {
  }

  lemma ReturnIsLast(th: Thread, th': Thread, list: nat, cells: nat)
    requires th.pc.Return? && th'.pc.Idle?
    ensures StepsLeft(th', list, cells) < StepsLeft(th, list, cells)
  {
  }

  lemma SumNonNegative(threads: seq<Thread>, list: nat, cells: nat)
    requires forall t :: 0 <= t < |threads| ==> InBounds(threads[t], list, cells)
    ensures SumMeasure(threads, list, cells) >= 0
  {
    hide ThreadMeasure, InBounds;
    if threads != [] {
      SumNonNegative(threads[..|threads| - 1], list, cells);
      MeasureNonNegative(threads[|threads| - 1], list, cells);
    }
  }

  lemma MeasureIsNatural(s: World)
    requires Inv(s)
    ensures Measure(s) >= 0
  {
    forall t | 0 <= t < |s.threads| ensures InBounds(s.threads[t], ListBound(s), SeatBound(s)) {
      ThreadInBounds(s, t);
    }
    SumNonNegative(s.threads, ListBound(s), SeatBound(s));
  }

  /** Every step that is not an invocation takes the machine closer to its end. */
  lemma WorkDecreases(s: World, t: nat, c: Choice)
    requires Inv(s) && t < |s.threads| && Step(s, t, c).Some? && !c.Invoke?
    ensures Inv(Step(s, t, c).value) && 0 <= Measure(Step(s, t, c).value) < Measure(s)
  {
    var s' := Step(s, t, c).value;
    var list, cells := ListBound(s), SeatBound(s);
    StepKeepsInv(s, t, c);
    WorkBoundEffect(s, t, c);
    BoundsShrink(s, t, s');
    WorkGoesDown(s, t, c);
    hide Inv, Step, ThreadMeasure, SumMeasure, ListBound, SeatBound;
    SumUpdate(s.threads, t, s'.threads[t], list, cells);
    SumMonotonic(s'.threads, list, ListBound(s'), cells, SeatBound(s'));
    MeasureIsNatural(s');
  }

  /** A stretch of a run without new invocations. */
  ghost predicate IsWork(work: seq<World>) {
    && work != []
    && forall i :: 0 <= i < |work| - 1 ==> Works(work[i], work[i + 1])
  }

  lemma WorksDown(s: World, s': World)
    requires Inv(s) && Works(s, s')
    ensures Inv(s') && 0 <= Measure(s') < Measure(s)
  {
    hide Inv, Step, Measure;
    var t: nat, c: Choice :| t < |s.threads| && !c.Invoke? && Step(s, t, c) == Some(s');
    WorkDecreases(s, t, c);
  }

  lemma {:induction false} WorkIsBounded(work: seq<World>)
    requires IsWork(work) && Inv(work[0])
    ensures Inv(work[|work| - 1]) && |work| - 1 + Measure(work[|work| - 1]) <= Measure(work[0])
  {
    hide Inv, Step, Works, Measure;
    var n := |work| - 1;
    if n > 0 {
      var prior := work[..n];
      WorkIsBounded(prior);
      assert Works(work[n - 1], work[n - 1 + 1]);
      WorksDown(work[n - 1], work[n]);
    }
  }

  /** No step is left but invocations. */
  ghost predicate Finished(s: World) {
    forall s' :: !Works(s, s')
  }

  lemma BusyWorks(s: World, t: nat)
    requires Inv(s) && t < |s.threads| && !s.threads[t].pc.Idle?
    ensures !Finished(s)
  {
    UnfoldInv(s);
    hide Inv, Step, DataOk, BookKept, Legal;
    SomeoneIsUnblocked(s, t);
    var u :| 0 <= u < |s.threads| && !Blocked(s, u);
    UnblockedMoves(s, u);
    assert Works(s, Step(s, u, Go).value);
  }

  lemma FinishedIsIdle(s: World)
    requires Inv(s) && Finished(s)
    ensures AllIdle(s) && AllLocksFree(s)
  {
    UnfoldInv(s);
    hide Inv, Finished, DataOk, BookKept, Legal;
    forall t | 0 <= t < |s.threads| ensures s.threads[t].pc.Idle? {
      if !s.threads[t].pc.Idle? { BusyWorks(s, t); }
    }
    IdleFreesLocks(s);
  }

  /**
   * Termination: after any run, working off the calls in progress takes at most `Measure` steps in any
   * order, and when no step is left every call has returned and every lock is free.
   */
  lemma CallsFinish(run: seq<World>, work: seq<World>)
    requires IsRun(run) && IsWork(work) && work[0] == run[|run| - 1]
    ensures |work| - 1 <= Measure(run[|run| - 1])
    ensures Finished(work[|work| - 1]) ==> AllIdle(work[|work| - 1]) && AllLocksFree(work[|work| - 1])
  {
    hide Inv, Step, Measure, Works, Finished, AllIdle, AllLocksFree;
    RunKeepsInv(run, |run| - 1);
    WorkIsBounded(work);
    MeasureIsNatural(work[|work| - 1]);
    if Finished(work[|work| - 1]) {
      FinishedIsIdle(work[|work| - 1]);
    }
  }
}
