/**
 * The step machine refines the serial meaning: replaying its log serially gives, at every moment,
 * the replies of the log and the contents of every event whose mutex is free.
 */
module Refinement {
  import opened Common
  import opened Seats
  import opened Ems
  import opened History
  import opened Scan
  import opened Machine
  import opened Locks
  import opened Book

  // ---- The serial state behind a log --------------------------------------------------------------

  function CallsOf(log: seq<Entry>): seq<Call> {
    seq(|log|, k requires 0 <= k < |log| => Call(log[k].op, log[k].fails))
  }

  ghost predicate ValidLog(log: seq<Entry>) {
    forall k :: 0 <= k < |log| ==> ValidOp(log[k].op)
  }

  /** The serial state after the calls of a log, in log order. */
  ghost function Abs(log: seq<Entry>): (abs: State)
    requires ValidLog(log)
    ensures Valid(abs)
  {
    StateAfter(CallsOf(log))
  }

  /** Each entry has the reply that the serial engine gives after the entries before it. */
  ghost predicate Legal(log: seq<Entry>) {
    && ValidLog(log)
    && forall k :: 0 <= k < |log| ==> log[k].reply == Apply(Abs(log[..k]), log[k].op, log[k].fails).1
  }

  lemma LegalCommit(log: seq<Entry>, e: Entry)
    requires Legal(log) && ValidOp(e.op)
    requires e.reply == Apply(Abs(log), e.op, e.fails).1
    ensures Legal(log + [e]) && Abs(log + [e]) == Apply(Abs(log), e.op, e.fails).0
  {
    var all := log + [e];
    assert CallsOf(all)[..|log|] == CallsOf(log);
    forall k | 0 <= k < |all|
      ensures all[k].reply == Apply(Abs(all[..k]), all[k].op, all[k].fails).1
    {
      assert all[..k] == if k == |log| then log else log[..k];
    }
  }

  // ---- Memory against the serial state ---------------------------------------------------------------

  /** The nodes 0 .. n-1 form the list, in order, and the tail is the last. */
  ghost predicate Chain(s: World, n: nat) {
    && n <= |s.nodes|
    && s.head == (if n == 0 then None else Some(0))
    && s.tail == (if n == 0 then None else Some(n - 1))
    && forall i :: 0 <= i < n ==> s.nodes[i].next == if i + 1 < n then Some(i + 1) else None
  }

  /** The list between the two pointer writes of an append. */
  ghost predicate HalfLinked(s: World, n: nat) {
    && n < |s.nodes|
    && s.head == Some(0)
    && s.tail == (if n == 0 then None else Some(n - 1))
    && s.nodes[n].next.None?
    && forall i :: 0 <= i < n ==> s.nodes[i].next == Some(i + 1)
  }

  /** One event more than the serial state has is allocated and belongs to the pending create call. */
  ghost predicate NewNode(s: World, n: nat, op: Op) {
    && |s.nodes| == n + 1 && |s.events| == n + 1 && op.Create? && op.rows * op.cols <= SIZE_MAX
    && s.events[n] == NewEvent(op.id, op.rows, op.cols)
    && s.nodes[n].next.None?
  }

  /** The thread that holds the list lock for writing, or an idle one. */
  function Writer(s: World): Thread {
    if s.writer.Some? && s.writer.value < |s.threads| then s.threads[s.writer.value] else InitialThread()
  }

  /** The heap-linked list holds the events in creation order, but for an append by thread `th`. */
  ghost predicate HeapAt(s: World, n: nat, th: Thread) {
    && |s.nodes| == |s.events|
    && (forall i :: 0 <= i < |s.nodes| ==> s.nodes[i].event == i)
    && match th.pc
       case CreateLink(node) => node == n && NewNode(s, n, th.op) && Chain(s, n)
       case CreateLinkTail(node) => node == n && NewNode(s, n, th.op) && HalfLinked(s, n)
       case CreateLinked(node) => NewNode(s, n, th.op) && Chain(s, n + 1)
       case _ => |s.nodes| == n && Chain(s, n)
  }

  ghost predicate HeapOk(s: World, n: nat) {
    HeapAt(s, n, Writer(s))
  }

  /** What the memory of event `i` holds: the serial event, or the part of a grant written so far. */
  ghost predicate EventOk(s: World, abs: State, i: nat)
    requires i < |abs| && |abs| <= |s.events| == |s.owners|
  {
    match s.owners[i]
    case None => s.events[i] == abs[i]
    case Some(t) =>
      && t < |s.threads|
      && var th := s.threads[t];
      if th.pc.WriteSeats? && th.op.Reserve? && th.pc.i <= |th.op.req|
      then th.pc.rid == NextId(abs[i].reservations) && s.events[i] == Granted(abs[i], th.op.req[..th.pc.i])
      else s.events[i] == abs[i]
  }

  ghost predicate EventsOk(s: World, abs: State) {
    && |abs| <= |s.events| == |s.owners|
    && (forall i :: 0 <= i < |abs| ==> EventOk(s, abs, i))
    && (forall i :: |abs| <= i < |s.owners| ==> s.owners[i].None?)
  }

  ghost predicate NotAmong(abs: State, n: int, id: uint) {
    n <= |abs| && forall k :: 0 <= k < n ==> abs[k].id != id
  }

  ghost predicate IsEvent(abs: State, ev: nat, id: uint) {
    ev < |abs| && abs[ev].id == id
  }

  /** What a thread knows about the serial state at each program counter. */
  ghost predicate ThreadOk(abs: State, th: Thread)
    requires Valid(abs)
  {
    var n, op := |abs|, th.op;
    match th.pc
    case Idle => true
    case Enter => true
    case Return(_) => true
    case CreateStart => true
    case CreateWalk(cur, to) => op.Create? && cur <= to == n - 1 && NotAmong(abs, cur, op.id)
    case CreateExists => op.Create? && !NotAmong(abs, n, op.id)
    case CreateAbsent => op.Create? && NotAmong(abs, n, op.id)
    case CreateFailed => op.Create? && NotAmong(abs, n, op.id)
    case CreateLink(_) => op.Create? && NotAmong(abs, n, op.id)
    case CreateLinkTail(_) => op.Create? && NotAmong(abs, n, op.id)
    case CreateLinked(_) => op.Create? && NotAmong(abs, n, op.id)
    case LookupStart => true
    case LookupWalk(cur, to) => (op.Reserve? || op.Show?) && cur <= to == n - 1 && NotAmong(abs, cur, op.id)
    case LookupMiss => (op.Reserve? || op.Show?) && NotAmong(abs, n, op.id)
    case LookupHit(ev) => (op.Reserve? || op.Show?) && IsEvent(abs, ev, op.id)
    case WantEvent(ev) => (op.Reserve? || op.Show?) && IsEvent(abs, ev, op.id)
    case CheckBounds(ev, i) =>
      op.Reserve? && IsEvent(abs, ev, op.id) && i <= |op.req| && AllInGrid(abs[ev], op.req[..i])
    case CheckSeats(ev, i, j) =>
      && op.Reserve? && IsEvent(abs, ev, op.id) && AllInGrid(abs[ev], op.req)
      && i <= abs[ev].rows * abs[ev].cols && j <= |op.req| && FreeBelow(abs[ev], op.req, i)
      && forall k :: 0 <= k < j ==> Index(abs[ev].cols, op.req[k]) != i
    case Refused(ev) => op.Reserve? && IsEvent(abs, ev, op.id) && !Accepts(abs[ev], op.req)
    case TakeId(ev) => op.Reserve? && IsEvent(abs, ev, op.id) && Accepts(abs[ev], op.req)
    case WriteSeats(ev, i, _) =>
      op.Reserve? && IsEvent(abs, ev, op.id) && Accepts(abs[ev], op.req) && i <= |op.req|
    case SendSeats(ev, sent) => op.Show? && IsEvent(abs, ev, op.id) && sent <= abs[ev].seats
    case ListStart => op.ListEvents?
    case ListEmpty => op.ListEvents? && n == 0
    case CountNodes(cur, to, k) => op.ListEvents? && cur == k <= to == n - 1
    case SendIds(cur, to, k, sent) =>
      op.ListEvents? && cur <= to == n - 1 && k == n && sent == IdsOf(abs)[..cur]
    case ListSent(k, sent) => op.ListEvents? && n > 0 && k == n && sent == IdsOf(abs)
  }

  ghost predicate ThreadsOk(s: World, abs: State)
    requires Valid(abs)
  {
    forall t :: 0 <= t < |s.threads| ==> ThreadOk(abs, s.threads[t])
  }

  ghost predicate DataOk(s: World, abs: State) {
    Valid(abs) && HeapOk(s, |abs|) && EventsOk(s, abs) && ThreadsOk(s, abs)
  }

  // ---- One step ---------------------------------------------------------------------------------------

  /** The serial state after a step: the step's log entry, if any, applied. */
  ghost function AbsNext(abs: State, s: World, s': World): State
    requires Valid(abs)
  {
    if |s'.log| <= |s.log| then abs
    else
      var e := s'.log[|s.log|];
      Apply(abs, e.op, e.fails).0
  }

  ghost predicate ReplyRight(abs: State, s: World, s': World)
    requires Valid(abs)
  {
    |s'.log| > |s.log| ==>
      var e := s'.log[|s.log|];
      ValidOp(e.op) && e.reply == Apply(abs, e.op, e.fails).1
  }

  /** The serial state moves only as the lock held by the stepping thread allows. */
  ghost predicate AbsMoves(abs: State, section: Section, abs': State) {
    match section
    case ListWrite => abs' == abs || (|abs'| == |abs| + 1 && abs <= abs')
    case EventMutex(ev) =>
      abs' == abs || (ev < |abs| == |abs'| && abs'[ev].id == abs[ev].id && abs' == abs[ev := abs'[ev]])
    case _ => abs' == abs
  }

  /** What a step of thread `t` establishes; `OtherKeeps` adds what the other threads know. */
  ghost predicate StepOk(abs: State, s: World, t: nat, s': World)
    requires Valid(abs) && t < |s.threads|
  {
    var abs' := AbsNext(abs, s, s');
    && t < |s'.threads|
    && ReplyRight(abs, s, s') && Valid(abs') && HeapOk(s', |abs'|) && EventsOk(s', abs')
    && ThreadOk(abs', s'.threads[t])
    && AbsMoves(abs, SectionOf(s.threads[t].pc), abs')
  }

  lemma FindAbsent(abs: State, id: uint)
    requires Valid(abs)
    ensures NotAmong(abs, |abs|, id) <==> Find(abs, id).None?
  {
  }

  // ---- Steps that change no memory ------------------------------------------------------------------

  predicate LinkPhase(pc: Pc) {
    pc.CreateLink? || pc.CreateLinkTail? || pc.CreateLinked?
  }

  ghost predicate SameMemory(s: World, s': World) {
    s'.nodes == s.nodes && s'.head == s.head && s'.tail == s.tail && s'.events == s.events
  }

  predicate Quiet(pc: Pc) {
    !LinkPhase(pc) && !pc.WriteSeats?
  }

  lemma WriterAfter(s: World, t: nat, s': World)
    requires LocksAgree(s) && t < |s.threads| && LockEffect(s, t, s')
    requires Quiet(s.threads[t].pc) && Quiet(s'.threads[t].pc)
    ensures Writer(s') == Writer(s) || (Quiet(Writer(s).pc) && Quiet(Writer(s').pc))
  {
  }

  lemma QuietHeap(s: World, t: nat, s': World, abs: State)
    requires LocksAgree(s) && HeapOk(s, |abs|) && t < |s.threads| && LockEffect(s, t, s') && SameMemory(s, s')
    requires Quiet(s.threads[t].pc) && Quiet(s'.threads[t].pc)
    ensures HeapOk(s', |abs|)
  {
    WriterAfter(s, t, s');
  }

  lemma QuietEvents(s: World, t: nat, s': World, abs: State)
    requires LocksAgree(s) && EventsOk(s, abs) && t < |s.threads| && LockEffect(s, t, s') && SameMemory(s, s')
    requires Valid(abs) && ThreadOk(abs, s'.threads[t])
    requires Quiet(s.threads[t].pc) && Quiet(s'.threads[t].pc)
    ensures EventsOk(s', abs)
  {
    forall i | 0 <= i < |abs| ensures EventOk(s', abs, i) {
      assert EventOk(s, abs, i);
    }
  }

  lemma EventShapes(s: World, abs: State, i: nat)
    requires EventsOk(s, abs) && i < |abs|
    ensures s.events[i].id == abs[i].id && s.events[i].rows == abs[i].rows && s.events[i].cols == abs[i].cols
    ensures |s.events[i].seats| == |abs[i].seats|
  {
    assert EventOk(s, abs, i);
  }

  /** What a thread inside a list section, outside an append, sees. */
  ghost predicate SeesList(s: World, abs: State) {
    && |s.nodes| == |s.events| == |abs| && Chain(s, |abs|)
    && forall i :: 0 <= i < |abs| ==> s.nodes[i].event == i && s.events[i].id == abs[i].id
  }

  lemma HeldList(s: World, t: nat, abs: State)
    requires LocksAgree(s) && DataOk(s, abs) && t < |s.threads| && Quiet(s.threads[t].pc)
    requires SectionOf(s.threads[t].pc) == ListWrite || SectionOf(s.threads[t].pc) == ListRead
    ensures SeesList(s, abs)
  {
    assert Quiet(Writer(s).pc);
    forall i | 0 <= i < |abs| ensures s.events[i].id == abs[i].id {
      EventShapes(s, abs, i);
    }
  }

  /** One turn of `get_event` on the list the thread holds. */
  lemma HopIsSearch(s: World, abs: State, id: uint, cur: nat, to: nat)
    requires SeesList(s, abs) && cur <= to == |abs| - 1 && NotAmong(abs, cur, id)
    ensures match GetEventHop(s, id, cur, to)
            case Found(ev) => ev == cur && IsEvent(abs, ev, id)
            case AtEnd => NotAmong(abs, |abs|, id)
            case OnTo(next) => next == cur + 1 <= to && NotAmong(abs, next, id)
            case Broken => false
  {
  }

  /** A quiet step of thread `t`: no memory changes and the serial state stays as it is. */
  ghost predicate QuietStepOk(abs: State, s: World, t: nat, s': World)
    requires Valid(abs)
  {
    && AbsNext(abs, s, s') == abs && ReplyRight(abs, s, s')
    && t < |s'.threads| && ThreadOk(abs, s'.threads[t]) && Quiet(s'.threads[t].pc) && SameMemory(s, s')
  }

  lemma CreateBeginQuiet(s: World, t: nat, c: Choice, abs: State)
    requires Valid(abs) && t < |s.threads| && ThreadOk(abs, s.threads[t])
    requires s.threads[t].op.Create? && CreateStep(s, t, c).Some?
    requires s.threads[t].pc.Enter? || s.threads[t].pc.CreateStart? || s.threads[t].pc.CreateWalk?
    requires SectionOf(s.threads[t].pc) == ListWrite ==> SeesList(s, abs)
    ensures QuietStepOk(abs, s, t, CreateStep(s, t, c).value)
  {
    var th := s.threads[t];
    if th.pc.CreateWalk? {
      HopIsSearch(s, abs, th.op.id, th.pc.cur, th.pc.to);
    }
  }

  lemma CreateFailQuiet(s: World, t: nat, c: Choice, abs: State)
    requires Valid(abs) && t < |s.threads| && ThreadOk(abs, s.threads[t])
    requires s.threads[t].op.Create? && ValidOp(s.threads[t].op) && CreateStep(s, t, c).Some?
    requires s.threads[t].pc.CreateExists? || s.threads[t].pc.CreateFailed?
             || (s.threads[t].pc.CreateAbsent? && c == Fail)
    ensures QuietStepOk(abs, s, t, CreateStep(s, t, c).value)
  {
    FindAbsent(abs, s.threads[t].op.id);
  }

  lemma LookupWalkQuiet(s: World, t: nat, abs: State)
    requires Valid(abs) && t < |s.threads| && ThreadOk(abs, s.threads[t])
    requires (s.threads[t].op.Reserve? || s.threads[t].op.Show?) && LookupStep(s, t).Some?
    requires s.threads[t].pc.Enter? || s.threads[t].pc.LookupStart? || s.threads[t].pc.LookupWalk?
    requires SectionOf(s.threads[t].pc) == ListRead ==> SeesList(s, abs)
    ensures QuietStepOk(abs, s, t, LookupStep(s, t).value)
  {
    var th := s.threads[t];
    if th.pc.LookupWalk? {
      HopIsSearch(s, abs, th.op.id, th.pc.cur, th.pc.to);
    }
  }

  lemma LookupMissQuiet(s: World, t: nat, abs: State)
    requires Valid(abs) && t < |s.threads| && ThreadOk(abs, s.threads[t])
    requires (s.threads[t].op.Reserve? || s.threads[t].op.Show?) && LookupStep(s, t).Some?
    requires s.threads[t].pc.LookupMiss?
    ensures QuietStepOk(abs, s, t, LookupStep(s, t).value)
  {
    FindAbsent(abs, s.threads[t].op.id);
  }

  lemma LookupHitQuiet(s: World, t: nat, abs: State)
    requires Valid(abs) && t < |s.threads| && ThreadOk(abs, s.threads[t])
    requires (s.threads[t].op.Reserve? || s.threads[t].op.Show?) && LookupStep(s, t).Some?
    requires s.threads[t].pc.LookupHit? || s.threads[t].pc.WantEvent?
    ensures QuietStepOk(abs, s, t, LookupStep(s, t).value)
  {
  }

  lemma ListBeginQuiet(s: World, t: nat, abs: State)
    requires Valid(abs) && t < |s.threads| && ThreadOk(abs, s.threads[t])
    requires s.threads[t].op.ListEvents? && ListStep(s, t).Some? && ListBegins(s.threads[t].pc)
    requires SectionOf(s.threads[t].pc) == ListRead ==> SeesList(s, abs)
    ensures QuietStepOk(abs, s, t, ListStep(s, t).value)
  {
  }

  lemma ListEndQuiet(s: World, t: nat, abs: State)
    requires Valid(abs) && t < |s.threads| && ThreadOk(abs, s.threads[t])
    requires s.threads[t].op.ListEvents? && ListStep(s, t).Some? && !ListBegins(s.threads[t].pc)
    requires SectionOf(s.threads[t].pc) == ListRead ==> SeesList(s, abs)
    ensures QuietStepOk(abs, s, t, ListStep(s, t).value)
  {
  }

  lemma ShowQuiet(s: World, t: nat, ev: nat, abs: State)
    requires Valid(abs) && t < |s.threads| && ThreadOk(abs, s.threads[t])
    requires s.threads[t].pc.SendSeats? && s.threads[t].pc.ev == ev < |abs|
    requires ev < |s.events| && s.events[ev] == abs[ev] && EventStep(s, t, ev).Some?
    ensures QuietStepOk(abs, s, t, EventStep(s, t, ev).value)
  {
    FindIs(abs, s.threads[t].op.id, ev);
  }

  /** A bounds check that fails finds a pair outside the grid; one that passes extends the prefix. */
  lemma CheckBoundsQuiet(s: World, t: nat, ev: nat, abs: State)
    requires Valid(abs) && t < |s.threads| && ThreadOk(abs, s.threads[t])
    requires s.threads[t].op.Reserve? && s.threads[t].pc.CheckBounds? && s.threads[t].pc.ev == ev < |abs|
    requires ev < |s.events| && s.events[ev] == abs[ev] && EventStep(s, t, ev).Some?
    ensures QuietStepOk(abs, s, t, EventStep(s, t, ev).value)
  {
    var th := s.threads[t];
    var i, req := th.pc.i, th.op.req;
    if i < |req| {
      assert req[i] in req;
      assert req[..i + 1] == req[..i] + [req[i]];
    } else {
      assert req[..i] == req;
    }
  }

  /** A taken seat found by the nested scan is a reason to refuse; a finished scan is none. */
  lemma CheckSeatsQuiet(s: World, t: nat, ev: nat, abs: State)
    requires Valid(abs) && t < |s.threads| && ThreadOk(abs, s.threads[t])
    requires s.threads[t].op.Reserve? && s.threads[t].pc.CheckSeats? && s.threads[t].pc.ev == ev < |abs|
    requires ev < |s.events| && s.events[ev] == abs[ev] && EventStep(s, t, ev).Some?
    ensures QuietStepOk(abs, s, t, EventStep(s, t, ev).value)
  {
    hide FreeBelow, Accepts, AllInGrid, MachineIndex, Index, Apply, Granted;
    var th, e := s.threads[t], abs[ev];
    ScanTurn(e, th.op.req, th.pc.i, th.pc.j);
  }

  lemma RefusedQuiet(s: World, t: nat, ev: nat, abs: State)
    requires Valid(abs) && t < |s.threads| && ThreadOk(abs, s.threads[t])
    requires s.threads[t].op.Reserve? && s.threads[t].pc.Refused? && s.threads[t].pc.ev == ev < |abs|
    requires EventStep(s, t, ev).Some?
    ensures QuietStepOk(abs, s, t, EventStep(s, t, ev).value)
  {
    FindIs(abs, s.threads[t].op.id, ev);
  }

  // ---- Steps of an append ------------------------------------------------------------------------------

  /** Events that exist serially are untouched by an append. */
  lemma AppendEvents(s: World, t: nat, s': World, abs: State)
    requires LocksAgree(s) && EventsOk(s, abs) && t < |s.threads| && LockEffect(s, t, s')
    requires SectionOf(s.threads[t].pc) == ListWrite
    requires s.events <= s'.events
    ensures EventsOk(s', abs)
  {
    forall i | 0 <= i < |abs| ensures EventOk(s', abs, i) {
      assert EventOk(s, abs, i);
    }
  }

  lemma AllocateHeap(s: World, t: nat, abs: State)
    requires Valid(abs) && HeapOk(s, |abs|) && t < |s.threads| && s.writer == Some(t)
    requires s.threads[t].op.Create? && s.threads[t].pc.CreateAbsent? && CreateStep(s, t, Go).Some?
    ensures HeapOk(CreateStep(s, t, Go).value, |abs|)
  {
  }

  lemma LinkHeap(s: World, t: nat, abs: State)
    requires Valid(abs) && HeapOk(s, |abs|) && t < |s.threads| && s.writer == Some(t)
    requires s.threads[t].op.Create? && s.threads[t].pc.CreateLink? && CreateStep(s, t, Go).Some?
    ensures HeapOk(CreateStep(s, t, Go).value, |abs|)
  {
  }

  lemma LinkTailHeap(s: World, t: nat, abs: State)
    requires Valid(abs) && HeapOk(s, |abs|) && t < |s.threads| && s.writer == Some(t)
    requires s.threads[t].op.Create? && s.threads[t].pc.CreateLinkTail? && CreateStep(s, t, Go).Some?
    ensures HeapOk(CreateStep(s, t, Go).value, |abs|)
  {
  }

  /** The append ends: the new event becomes part of the serial state. */
  lemma LinkedStep(s: World, t: nat, abs: State)
    requires LocksAgree(s) && DataOk(s, abs) && t < |s.threads| && s.writer == Some(t)
    requires s.threads[t].op.Create? && s.threads[t].pc.CreateLinked? && CreateStep(s, t, Go).Some?
    ensures var s' := CreateStep(s, t, Go).value;
            var abs' := AbsNext(abs, s, s');
            && ReplyRight(abs, s, s') && Valid(abs')
            && |abs'| == |abs| + 1 && abs <= abs'
            && HeapOk(s', |abs'|) && EventsOk(s', abs')
  {
    var op := s.threads[t].op;
    assert ThreadOk(abs, s.threads[t]);
    FindAbsent(abs, op.id);
    var s' := CreateStep(s, t, Go).value;
    var abs' := AbsNext(abs, s, s');
    assert abs' == abs + [NewEvent(op.id, op.rows, op.cols)];
    ApplyValid(abs, op, false);
    forall i | 0 <= i < |abs'| ensures EventOk(s', abs', i) {
      if i < |abs| { assert EventOk(s, abs, i); }
    }
  }

  // ---- Steps of a grant --------------------------------------------------------------------------------

  /** Memory writes to one existing event leave the list as it is. */
  lemma EventWriteHeap(s: World, t: nat, ev: nat, s': World, n: nat)
    requires HeapOk(s, n) && LocksAgree(s) && t < |s.threads| && LockEffect(s, t, s')
    requires SectionOf(s.threads[t].pc) == EventMutex(ev) && ev < n
    requires SectionOf(s'.threads[t].pc) == EventMutex(ev) || SectionOf(s'.threads[t].pc) == NoLock
    requires s'.nodes == s.nodes && s'.head == s.head && s'.tail == s.tail
    requires ev < |s.events| && s'.events == s.events[ev := s'.events[ev]]
    ensures HeapOk(s', n)
  {
    assert s'.writer == s.writer && Writer(s') == Writer(s);
  }

  lemma EventWriteOthers(s: World, t: nat, ev: nat, s': World, abs: State, abs': State)
    requires EventsOk(s, abs) && LocksAgree(s) && t < |s.threads| && LockEffect(s, t, s')
    requires SectionOf(s.threads[t].pc) == EventMutex(ev) && ev < |abs| == |abs'|
    requires SectionOf(s'.threads[t].pc) == EventMutex(ev) || SectionOf(s'.threads[t].pc) == NoLock
    requires ev < |s.events| && |s'.events| == |s.events| && s'.events == s.events[ev := s'.events[ev]]
    requires abs' == abs[ev := abs'[ev]] && EventOk(s', abs', ev)
    ensures EventsOk(s', abs')
  {
    forall i | 0 <= i < |abs'| ensures EventOk(s', abs', i) {
      if i != ev { assert EventOk(s, abs, i); }
    }
  }

  lemma TakeIdStep(s: World, t: nat, ev: nat, abs: State)
    requires Valid(abs) && t < |s.threads| && ThreadOk(abs, s.threads[t])
    requires s.threads[t].op.Reserve? && s.threads[t].pc.TakeId? && s.threads[t].pc.ev == ev < |abs|
    requires |abs| <= |s.events| == |s.owners| && s.owners[ev] == Some(t) && EventOk(s, abs, ev)
    requires EventStep(s, t, ev).Some?
    ensures var s' := EventStep(s, t, ev).value;
            s'.log == s.log && ThreadOk(abs, s'.threads[t]) && EventOk(s', abs, ev)
  {
    MarkNothing(abs[ev]);
    assert s.threads[t].op.req[..0] == [];
  }

  lemma WriteSeatStep(s: World, t: nat, ev: nat, abs: State)
    requires Valid(abs) && t < |s.threads| && ThreadOk(abs, s.threads[t])
    requires s.threads[t].op.Reserve? && s.threads[t].pc.WriteSeats? && s.threads[t].pc.ev == ev < |abs|
    requires s.threads[t].pc.i < |s.threads[t].op.req|
    requires |abs| <= |s.events| == |s.owners| && s.owners[ev] == Some(t) && EventOk(s, abs, ev)
    ensures EventStep(s, t, ev).Some?
    ensures var s' := EventStep(s, t, ev).value;
            s'.log == s.log && ThreadOk(abs, s'.threads[t]) && EventOk(s', abs, ev)
  {
    MarkOneMore(abs[ev], s.threads[t].op.req, s.threads[t].pc.i);
  }

  /** The grant ends: the whole request becomes part of the serial state at once. */
  lemma GrantedStep(s: World, t: nat, ev: nat, abs: State)
    requires Valid(abs) && t < |s.threads| && ThreadOk(abs, s.threads[t])
    requires s.threads[t].op.Reserve? && s.threads[t].pc.WriteSeats? && s.threads[t].pc.ev == ev < |abs|
    requires s.threads[t].pc.i == |s.threads[t].op.req|
    requires |abs| <= |s.events| == |s.owners| && s.owners[ev] == Some(t) && EventOk(s, abs, ev)
    requires EventStep(s, t, ev).Some?
    ensures var s' := EventStep(s, t, ev).value;
            var abs' := AbsNext(abs, s, s');
            && ReplyRight(abs, s, s') && Valid(abs')
            && |abs'| == |abs| && abs'[ev].id == abs[ev].id && abs' == abs[ev := abs'[ev]]
            && EventOk(s', abs', ev)
  {
    var op := s.threads[t].op;
    assert op.req[..|op.req|] == op.req;
    FindIs(abs, op.id, ev);
    ApplyValid(abs, op, false);
  }

  // ---- Every step ----------------------------------------------------------------------------------------

  lemma QuietIsOk(s: World, t: nat, s': World, abs: State)
    requires LocksAgree(s) && DataOk(s, abs) && t < |s.threads| && LockEffect(s, t, s')
    requires Quiet(s.threads[t].pc) && QuietStepOk(abs, s, t, s')
    ensures StepOk(abs, s, t, s')
  {
    QuietHeap(s, t, s', abs);
    QuietEvents(s, t, s', abs);
  }

  lemma AppendThread(s: World, t: nat, abs: State)
    requires Valid(abs) && t < |s.threads| && ThreadOk(abs, s.threads[t]) && s.threads[t].op.Create?
    requires s.threads[t].pc.CreateAbsent? || s.threads[t].pc.CreateLink? || s.threads[t].pc.CreateLinkTail?
    requires CreateStep(s, t, Go).Some?
    ensures var s' := CreateStep(s, t, Go).value;
            s'.log == s.log && s.events <= s'.events && ThreadOk(abs, s'.threads[t])
  {
  }

  lemma AppendOk(s: World, t: nat, abs: State)
    requires LocksAgree(s) && DataOk(s, abs) && t < |s.threads| && s.writer == Some(t)
    requires s.threads[t].pc.CreateAbsent? || s.threads[t].pc.CreateLink? || s.threads[t].pc.CreateLinkTail?
    requires s.threads[t].op.Create? && CreateStep(s, t, Go).Some?
    requires LockEffect(s, t, CreateStep(s, t, Go).value)
    ensures StepOk(abs, s, t, CreateStep(s, t, Go).value)
  {
    assert ThreadOk(abs, s.threads[t]);
    hide HeapOk, EventsOk, ThreadOk, LockEffect, MutexesAgree, PrinterAgrees;
    AppendThread(s, t, abs);
    AppendEvents(s, t, CreateStep(s, t, Go).value, abs);
    match s.threads[t].pc
    case CreateAbsent => AllocateHeap(s, t, abs);
    case CreateLink(_) => LinkHeap(s, t, abs);
    case CreateLinkTail(_) => LinkTailHeap(s, t, abs);
  }

  lemma CreateOk(s: World, t: nat, c: Choice, abs: State)
    requires LocksAgree(s) && DataOk(s, abs) && t < |s.threads|
    requires s.threads[t].op.Create? && CreateStep(s, t, c).Some?
    requires LockEffect(s, t, CreateStep(s, t, c).value)
    ensures StepOk(abs, s, t, CreateStep(s, t, c).value)
  {
    hide HeapOk, EventsOk, ThreadOk, LockEffect, MutexesAgree, PrinterAgrees;
    var pc := s.threads[t].pc;
    assert ThreadOk(abs, s.threads[t]);
    if Quiet(pc) && (pc.CreateAbsent? ==> c == Fail) {
      if SectionOf(pc) == ListWrite { HeldList(s, t, abs); }
      if pc.Enter? || pc.CreateStart? || pc.CreateWalk? {
        CreateBeginQuiet(s, t, c, abs);
      } else {
        CreateFailQuiet(s, t, c, abs);
      }
      QuietIsOk(s, t, CreateStep(s, t, c).value, abs);
    } else {
      assert CreateStep(s, t, Go) == CreateStep(s, t, c);
      if pc.CreateLinked? {
        LinkedStep(s, t, abs);
        assert CreateStep(s, t, c).value.threads[t].pc.Return?;
        ReturnKnowsNothing(AbsNext(abs, s, CreateStep(s, t, c).value), CreateStep(s, t, c).value.threads[t]);
      } else {
        AppendOk(s, t, abs);
      }
    }
  }

  lemma ReturnKnowsNothing(abs: State, th: Thread)
    requires Valid(abs) && !Pending(th.pc)
    ensures ThreadOk(abs, th)
  {
  }

  lemma LookupOk(s: World, t: nat, abs: State)
    requires LocksAgree(s) && DataOk(s, abs) && t < |s.threads|
    requires (s.threads[t].op.Reserve? || s.threads[t].op.Show?) && LookupStep(s, t).Some?
    requires LockEffect(s, t, LookupStep(s, t).value)
    ensures StepOk(abs, s, t, LookupStep(s, t).value)
  {
    var pc := s.threads[t].pc;
    assert ThreadOk(abs, s.threads[t]);
    if SectionOf(pc) == ListRead { HeldList(s, t, abs); }
    hide ThreadOk, HeapOk, EventsOk, MutexesAgree, PrinterAgrees, LockEffect;
    if pc.LookupMiss? {
      LookupMissQuiet(s, t, abs);
    } else if pc.LookupHit? || pc.WantEvent? {
      LookupHitQuiet(s, t, abs);
    } else {
      LookupWalkQuiet(s, t, abs);
    }
    QuietIsOk(s, t, LookupStep(s, t).value, abs);
  }

  lemma ListOk(s: World, t: nat, abs: State)
    requires LocksAgree(s) && DataOk(s, abs) && t < |s.threads|
    requires s.threads[t].op.ListEvents? && ListStep(s, t).Some?
    requires LockEffect(s, t, ListStep(s, t).value)
    ensures StepOk(abs, s, t, ListStep(s, t).value)
  {
    var pc := s.threads[t].pc;
    assert ThreadOk(abs, s.threads[t]);
    if SectionOf(pc) == ListRead { HeldList(s, t, abs); }
    hide ThreadOk, HeapOk, EventsOk, MutexesAgree, PrinterAgrees, LockEffect;
    if ListBegins(pc) {
      ListBeginQuiet(s, t, abs);
    } else {
      ListEndQuiet(s, t, abs);
    }
    QuietIsOk(s, t, ListStep(s, t).value, abs);
  }

  /** What a step of the counter or of the write loop touches. */
  lemma WriteTouches(s: World, t: nat, ev: nat)
    requires t < |s.threads| && s.threads[t].op.Reserve? && EventStep(s, t, ev).Some?
    requires s.threads[t].pc.WriteSeats? || s.threads[t].pc.TakeId?
    requires s.threads[t].pc.ev == ev
    ensures var s' := EventStep(s, t, ev).value;
            && s'.nodes == s.nodes && s'.head == s.head && s'.tail == s.tail
            && ev < |s.events| && |s'.events| == |s.events| && s'.events == s.events[ev := s'.events[ev]]
            && t < |s'.threads|
            && (SectionOf(s'.threads[t].pc) == EventMutex(ev) || SectionOf(s'.threads[t].pc) == NoLock)
            && (s.threads[t].pc.WriteSeats? && s.threads[t].pc.i == |s.threads[t].op.req| ==> s'.threads[t].pc.Return?)
  {
  }

  lemma WriterKnows(s: World, t: nat, ev: nat, abs: State)
    requires DataOk(s, abs) && t < |s.threads| && ev < |abs|
    ensures ThreadOk(abs, s.threads[t]) && EventOk(s, abs, ev)
    ensures s.threads[t].pc.WriteSeats? ==> s.threads[t].op.Reserve? && s.threads[t].pc.i <= |s.threads[t].op.req|
  {
    assert ThreadOk(abs, s.threads[t]);
    hide HeapOk, EventOk;
  }

  lemma WriteOk(s: World, t: nat, ev: nat, abs: State)
    requires LocksAgree(s) && DataOk(s, abs) && t < |s.threads| && ev < |abs| && s.owners[ev] == Some(t)
    requires SectionOf(s.threads[t].pc) == EventMutex(ev) && EventStep(s, t, ev).Some?
    requires s.threads[t].pc.WriteSeats? || s.threads[t].pc.TakeId?
    requires s.threads[t].op.Reserve?
    requires LockEffect(s, t, EventStep(s, t, ev).value)
    ensures StepOk(abs, s, t, EventStep(s, t, ev).value)
  {
    hide EventStep, HeapOk, ThreadOk, EventOk, LockEffect, ListLockAgrees, MutexesAgree, PrinterAgrees, Apply;
    var s', th := EventStep(s, t, ev).value, s.threads[t];
    WriterKnows(s, t, ev, abs);
    WriteTouches(s, t, ev);
    if th.pc.TakeId? {
      TakeIdStep(s, t, ev, abs);
    } else if th.pc.i < |th.op.req| {
      WriteSeatStep(s, t, ev, abs);
    } else {
      GrantedStep(s, t, ev, abs);
      ReturnKnowsNothing(AbsNext(abs, s, s'), s'.threads[t]);
    }
    EventWriteHeap(s, t, ev, s', |abs|);
    EventWriteOthers(s, t, ev, s', abs, AbsNext(abs, s, s'));
  }

  lemma ReadOk(s: World, t: nat, ev: nat, abs: State)
    requires LocksAgree(s) && DataOk(s, abs) && t < |s.threads| && ev < |abs| && s.owners[ev] == Some(t)
    requires SectionOf(s.threads[t].pc) == EventMutex(ev) && EventStep(s, t, ev).Some?
    requires Quiet(s.threads[t].pc) && !s.threads[t].pc.TakeId?
    requires s.threads[t].op.Reserve? || s.threads[t].pc.SendSeats?
    requires LockEffect(s, t, EventStep(s, t, ev).value)
    ensures StepOk(abs, s, t, EventStep(s, t, ev).value)
  {
    var s' := EventStep(s, t, ev).value;
    assert ThreadOk(abs, s.threads[t]) && EventOk(s, abs, ev);
    hide HeapOk, ThreadOk, EventOk, LockEffect, ListLockAgrees, MutexesAgree, PrinterAgrees;
    match s.threads[t].pc {
      case CheckBounds(_, _) => CheckBoundsQuiet(s, t, ev, abs);
      case CheckSeats(_, _, _) => CheckSeatsQuiet(s, t, ev, abs);
      case Refused(_) => RefusedQuiet(s, t, ev, abs);
      case SendSeats(_, _) => ShowQuiet(s, t, ev, abs);
    }
    QuietIsOk(s, t, s', abs);
  }

  lemma EventStepOk(s: World, t: nat, ev: nat, abs: State)
    requires LocksAgree(s) && DataOk(s, abs) && t < |s.threads|
    requires SectionOf(s.threads[t].pc) == EventMutex(ev) && EventStep(s, t, ev).Some?
    requires LockEffect(s, t, EventStep(s, t, ev).value)
    ensures StepOk(abs, s, t, EventStep(s, t, ev).value)
  {
    assert ThreadOk(abs, s.threads[t]) && ev < |abs| && s.owners[ev] == Some(t);
    hide DataOk, LockEffect, StepOk;
    if s.threads[t].pc.WriteSeats? || s.threads[t].pc.TakeId? {
      WriteOk(s, t, ev, abs);
    } else {
      ReadOk(s, t, ev, abs);
    }
  }

  lemma BodyStepOk(s: World, t: nat, c: Choice, abs: State)
    requires LocksAgree(s) && DataOk(s, abs) && t < |s.threads|
    requires Pending(s.threads[t].pc) && BodyStep(s, t, c).Some?
    requires LockEffect(s, t, BodyStep(s, t, c).value)
    ensures StepOk(abs, s, t, BodyStep(s, t, c).value)
  {
    hide DataOk, LocksAgree, StepOk, LockEffect, CreateStep, LookupStep, ListStep, EventStep;
    match SectionOf(s.threads[t].pc)
    case EventMutex(ev) => EventStepOk(s, t, ev, abs);
    case _ =>
      match s.threads[t].op
      case Create(_, _, _) => CreateOk(s, t, c, abs);
      case Reserve(_, _) => LookupOk(s, t, abs);
      case Show(_) => LookupOk(s, t, abs);
      case ListEvents => ListOk(s, t, abs);
  }

  lemma AnyStepOk(s: World, t: nat, c: Choice, abs: State)
    requires LocksAgree(s) && DataOk(s, abs) && t < |s.threads| && Step(s, t, c).Some?
    ensures StepOk(abs, s, t, Step(s, t, c).value)
  {
    StepLockEffect(s, t, c);
    hide DataOk, LocksAgree, StepOk, LockEffect, BodyStep;
    if s.threads[t].msg.Silent? && Pending(s.threads[t].pc) {
      BodyStepOk(s, t, c, abs);
    } else {
      OutsideOk(s, t, c, abs);
    }
  }

  /** What invocations, returns and messages leave alone. */
  lemma OutsideChangesLittle(s: World, t: nat, c: Choice)
    requires t < |s.threads| && Step(s, t, c).Some?
    requires !s.threads[t].msg.Silent? || !Pending(s.threads[t].pc)
    ensures var s' := Step(s, t, c).value;
            && SameMemory(s, s') && s'.log == s.log
            && s'.writer == s.writer && s'.readers == s.readers && s'.owners == s.owners
            && |s'.threads| == |s.threads| && s'.threads == s.threads[t := s'.threads[t]]
            && ((s'.threads[t].pc == s.threads[t].pc && s'.threads[t].op == s.threads[t].op)
                || (SectionOf(s.threads[t].pc) == SectionOf(s'.threads[t].pc) == NoLock
                    && (s'.threads[t].pc.Idle? || s'.threads[t].pc.Enter?)))
  {
  }

  lemma OutsideOk(s: World, t: nat, c: Choice, abs: State)
    requires LocksAgree(s) && DataOk(s, abs) && t < |s.threads| && Step(s, t, c).Some?
    requires !s.threads[t].msg.Silent? || !Pending(s.threads[t].pc)
    ensures StepOk(abs, s, t, Step(s, t, c).value)
  {
    hide Step;
    var s' := Step(s, t, c).value;
    OutsideChangesLittle(s, t, c);
    OutsideKeepsEvents(s, t, s', abs);
    OutsideKeepsHeap(s, t, s', abs);
    OutsideThread(s, t, s', abs);
  }

  ghost predicate Outside(s: World, t: nat, s': World)
    requires t < |s.threads|
  {
    && SameMemory(s, s') && s'.writer == s.writer && s'.owners == s.owners
    && |s'.threads| == |s.threads| && s'.threads == s.threads[t := s'.threads[t]]
    && ((s'.threads[t].pc == s.threads[t].pc && s'.threads[t].op == s.threads[t].op)
        || (SectionOf(s.threads[t].pc) == SectionOf(s'.threads[t].pc) == NoLock
            && (s'.threads[t].pc.Idle? || s'.threads[t].pc.Enter?)))
  }

  lemma OutsideKeepsEvents(s: World, t: nat, s': World, abs: State)
    requires LocksAgree(s) && EventsOk(s, abs) && t < |s.threads| && Outside(s, t, s')
    ensures EventsOk(s', abs)
  {
    forall i | 0 <= i < |abs| ensures EventOk(s', abs, i) {
      assert EventOk(s, abs, i);
    }
  }

  lemma OutsideKeepsHeap(s: World, t: nat, s': World, abs: State)
    requires LocksAgree(s) && HeapOk(s, |abs|) && t < |s.threads| && Outside(s, t, s')
    ensures HeapOk(s', |abs|)
  {
    assert s.writer == Some(t) ==> Writer(s').pc == Writer(s).pc && Writer(s').op == Writer(s).op;
    assert s.writer != Some(t) ==> Writer(s') == Writer(s);
  }

  lemma OutsideThread(s: World, t: nat, s': World, abs: State)
    requires Valid(abs) && t < |s.threads| && ThreadOk(abs, s.threads[t]) && Outside(s, t, s')
    ensures ThreadOk(abs, s'.threads[t])
  {
  }

  /** What a thread outside the list sections knows survives an append. */
  lemma AppendKeeps(abs: State, abs': State, th: Thread)
    requires Valid(abs) && Valid(abs') && ThreadOk(abs, th) && abs <= abs'
    requires SectionOf(th.pc).NoLock? || SectionOf(th.pc).EventMutex?
    ensures ThreadOk(abs', th)
  {
    assert forall i :: 0 <= i < |abs| ==> abs'[i] == abs[i];
  }

  /** What a thread knows survives a change of an event whose mutex it does not hold. */
  lemma EventKeeps(abs: State, ev: nat, abs': State, th: Thread)
    requires Valid(abs) && Valid(abs') && ThreadOk(abs, th)
    requires ev < |abs| == |abs'| && abs'[ev].id == abs[ev].id && abs' == abs[ev := abs'[ev]]
    requires SectionOf(th.pc) != EventMutex(ev)
    ensures ThreadOk(abs', th)
  {
    assert forall i :: 0 <= i < |abs| ==> abs'[i].id == abs[i].id;
    assert IdsOf(abs') == IdsOf(abs);
  }

  lemma OtherKeeps(s: World, t: nat, s': World, abs: State, abs': State, u: nat)
    requires LocksAgree(s) && DataOk(s, abs) && Valid(abs') && t < |s.threads| && u < |s.threads| && u != t
    requires AbsMoves(abs, SectionOf(s.threads[t].pc), abs')
    ensures ThreadOk(abs', s.threads[u])
  {
    hide ThreadOk, HeapOk, EventsOk;
    assert ThreadOk(abs, s.threads[u]);
    if abs' != abs {
      SectionsDiffer(s, t, u);
      match SectionOf(s.threads[t].pc)
      case ListWrite => AppendKeeps(abs, abs', s.threads[u]);
      case EventMutex(ev) => EventKeeps(abs, ev, abs', s.threads[u]);
    }
  }

  lemma SectionsDiffer(s: World, t: nat, u: nat)
    requires LocksAgree(s) && t < |s.threads| && u < |s.threads| && u != t
    ensures var mine, its := SectionOf(s.threads[t].pc), SectionOf(s.threads[u].pc);
            && (mine.ListWrite? ==> its.NoLock? || its.EventMutex?)
            && (mine.EventMutex? ==> its != mine)
  {
  }

  lemma StepKeepsData(s: World, t: nat, c: Choice)
    requires LocksAgree(s) && Legal(s.log) && DataOk(s, Abs(s.log)) && t < |s.threads| && Step(s, t, c).Some?
    ensures var s' := Step(s, t, c).value;
            Legal(s'.log) && DataOk(s', Abs(s'.log))
  {
    var s' := Step(s, t, c).value;
    var abs := Abs(s.log);
    AnyStepOk(s, t, c, abs);
    StepBookEffect(s, t, c);
    StepLockEffect(s, t, c);
    var abs' := AbsNext(abs, s, s');
    if s'.log != s.log {
      LegalCommit(s.log, s'.log[|s.log|]);
      assert s'.log == s.log + [s'.log[|s.log|]];
    }
    assert Abs(s'.log) == abs';
    forall u | 0 <= u < |s'.threads| ensures ThreadOk(abs', s'.threads[u]) {
      if u != t { OtherKeeps(s, t, s', abs, abs', u); }
    }
  }
}
