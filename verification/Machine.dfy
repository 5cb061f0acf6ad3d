/**
 * operations.c and eventlist.c as a step machine for any number of threads. Every lock operation, every
 * write of a list pointer, every seat checked, every seat written and every word sent is a step of its own;
 * one step reads the head and the tail, or a node with its event's id and its next pointer, and one step
 * allocates an event with its node, which no other thread can see yet. List nodes and events live on a heap
 * whose addresses are allocation numbers (nothing is freed while the server serves). A step that would
 * follow a null pointer or leave an array is not defined, so a machine that is never stuck is memory safe.
 */
module Machine {
  import opened Common
  import opened Seats
  import opened Ems

  datatype Node = Node(event: nat, next: Option<nat>)

  /** Where a thread is inside a call; the values are the locals of the source. */
  datatype Pc =
    | Idle
    | Enter
    // ems_create, from here to `CreateLinked` under the list lock for writing
    | CreateStart
    | CreateWalk(cur: nat, to: nat)
    | CreateExists
    | CreateAbsent
    | CreateFailed
    | CreateLink(node: nat)
    | CreateLinkTail(node: nat)
    | CreateLinked(node: nat)
    // the lookup of ems_reserve and ems_show, under the list lock for reading
    | LookupStart
    | LookupWalk(cur: nat, to: nat)
    | LookupMiss
    | LookupHit(ev: nat)
    // no lock held
    | WantEvent(ev: nat)
    // ems_reserve, under the event's mutex
    | CheckBounds(ev: nat, i: nat)
    | CheckSeats(ev: nat, i: nat, j: nat)
    | Refused(ev: nat)
    | TakeId(ev: nat)
    | WriteSeats(ev: nat, i: nat, rid: uint)
    // ems_show, under the event's mutex
    | SendSeats(ev: nat, sent: seq<uint>)
    // ems_list_events, under the list lock for reading
    | ListStart
    | ListEmpty
    | CountNodes(cur: nat, to: nat, n: nat)
    | SendIds(cur: nat, to: nat, n: nat, sent: seq<uint>)
    | ListSent(n: nat, sent: seq<uint>)
    // the call has taken effect
    | Return(reply: Reply)

  /** `print_error` takes its own mutex around the message. */
  datatype Message = Silent | Waiting | Printing

  /** `call` is the place of the call's invocation in the history. */
  datatype Thread = Thread(pc: Pc, msg: Message, call: nat, op: Op)

  datatype Happening = Invoked(op: Op) | Returned(call: nat, reply: Reply)

  /** A call that has taken effect; `at` is the length of the history at that moment. */
  datatype Entry = Entry(call: nat, op: Op, fails: bool, reply: Reply, at: nat)

  datatype World = World(
    // shared memory
    nodes: seq<Node>, head: Option<nat>, tail: Option<nat>, events: seq<Event>,
    // locks
    writer: Option<nat>, readers: set<nat>, owners: seq<Option<nat>>, printer: Option<nat>,
    threads: seq<Thread>,
    // what is observed: the history of invocations and returns, the calls whose allocation failed,
    // and the order of effects
    history: seq<Happening>, failures: set<nat>, log: seq<Entry>)

  datatype Choice = Invoke(op: Op) | Go | Fail

  function InitialThread(): Thread {
    Thread(Idle, Silent, 0, Op.ListEvents)
  }

  ghost predicate Init(s: World) {
    && s.nodes == [] && s.head == None && s.tail == None && s.events == []
    && s.writer == None && s.readers == {} && s.owners == [] && s.printer == None
    && (forall t :: 0 <= t < |s.threads| ==> s.threads[t] == InitialThread())
    && s.history == [] && s.failures == {} && s.log == []
  }

  // ---- Steps ----------------------------------------------------------------------------

  function At(s: World, t: nat, pc: Pc): World
    requires t < |s.threads|
  {
    s.(threads := s.threads[t := s.threads[t].(pc := pc)])
  }

  /** Go on at `pc` after printing an error message. */
  function Complain(s: World, t: nat, pc: Pc): World
    requires t < |s.threads|
  {
    s.(threads := s.threads[t := s.threads[t].(pc := pc, msg := Waiting)])
  }

  /** The call takes effect: its reply is fixed and it is entered in the log. */
  function Commit(s: World, t: nat, fails: bool, reply: Reply): World
    requires t < |s.threads|
  {
    var th := s.threads[t];
    At(s, t, Return(reply)).(log := s.log + [Entry(th.call, th.op, fails, reply, |s.history|)])
  }

  /** One turn of the loop of `get_event`: found here, last node, next node, or no next node. */
  datatype Hop = Found(ev: nat) | AtEnd | OnTo(cur: nat) | Broken

  function GetEventHop(s: World, id: uint, cur: nat, to: nat): Hop {
    if cur >= |s.nodes| || s.nodes[cur].event >= |s.events| then Broken
    else if s.events[s.nodes[cur].event].id == id then Found(s.nodes[cur].event)
    else if cur == to then AtEnd
    else if s.nodes[cur].next.None? then Broken
    else OnTo(s.nodes[cur].next.value)
  }

  function PrintStep(s: World, t: nat): Option<World>
    requires t < |s.threads|
  {
    match s.threads[t].msg
    case Silent => None
    case Waiting =>
      if s.printer.None? then
        Some(s.(printer := Some(t), threads := s.threads[t := s.threads[t].(msg := Printing)]))
      else None
    case Printing =>
      Some(s.(printer := None, threads := s.threads[t := s.threads[t].(msg := Silent)]))
  }

  function CreateStep(s: World, t: nat, c: Choice): Option<World>
    requires t < |s.threads| && s.threads[t].op.Create?
  {
    var op := s.threads[t].op;
    match s.threads[t].pc
    case Enter =>
      if s.writer.None? && s.readers == {} then Some(At(s, t, CreateStart).(writer := Some(t))) else None
    case CreateStart =>
      if s.head.None? || s.tail.None? then Some(At(s, t, CreateAbsent))
      else Some(At(s, t, CreateWalk(s.head.value, s.tail.value)))
    case CreateWalk(cur, to) =>
      (match GetEventHop(s, op.id, cur, to)
       case Found(_) => Some(Complain(s, t, CreateExists))
       case AtEnd => Some(At(s, t, CreateAbsent))
       case OnTo(next) => Some(At(s, t, CreateWalk(next, to)))
       case Broken => None)
    case CreateExists =>
      Some(Commit(s, t, false, Code(1)).(writer := None))
    case CreateAbsent =>
      if c == Fail then Some(Complain(s, t, CreateFailed).(failures := s.failures + {s.threads[t].call}))
      else if op.rows * op.cols > SIZE_MAX then None
      else
        var a := |s.events|;
        Some(At(s, t, CreateLink(|s.nodes|)).(
          events := s.events + [NewEvent(op.id, op.rows, op.cols)],
          owners := s.owners + [None],
          nodes := s.nodes + [Node(a, None)]))
    case CreateFailed =>
      Some(Commit(s, t, true, Code(1)).(writer := None))
    case CreateLink(node) =>
      if s.head.None? then Some(At(s, t, CreateLinkTail(node)).(head := Some(node)))
      else if s.tail.None? || s.tail.value >= |s.nodes| then None
      else
        var last := s.tail.value;
        Some(At(s, t, CreateLinkTail(node)).(nodes := s.nodes[last := s.nodes[last].(next := Some(node))]))
    case CreateLinkTail(node) =>
      Some(At(s, t, CreateLinked(node)).(tail := Some(node)))
    case CreateLinked(_) =>
      Some(Commit(s, t, false, Code(0)).(writer := None))
    case _ => None
  }

  function LookupStep(s: World, t: nat): Option<World>
    requires t < |s.threads| && (s.threads[t].op.Reserve? || s.threads[t].op.Show?)
  {
    var op := s.threads[t].op;
    match s.threads[t].pc
    case Enter =>
      if s.writer.None? then Some(At(s, t, LookupStart).(readers := s.readers + {t})) else None
    case LookupStart =>
      if s.head.None? || s.tail.None? then Some(At(s, t, LookupMiss))
      else Some(At(s, t, LookupWalk(s.head.value, s.tail.value)))
    case LookupWalk(cur, to) =>
      (match GetEventHop(s, op.id, cur, to)
       case Found(ev) => Some(At(s, t, LookupHit(ev)))
       case AtEnd => Some(At(s, t, LookupMiss))
       case OnTo(next) => Some(At(s, t, LookupWalk(next, to)))
       case Broken => None)
    case LookupMiss =>
      var done := Commit(s, t, false, Code(1)).(readers := s.readers - {t});
      Some(Complain(done, t, Return(Code(1))))
    case LookupHit(ev) =>
      Some(At(s, t, WantEvent(ev)).(readers := s.readers - {t}))
    case WantEvent(ev) =>
      if ev < |s.owners| && s.owners[ev].None? then
        Some(At(s, t, if op.Reserve? then CheckBounds(ev, 0) else SendSeats(ev, [])).(
          owners := s.owners[ev := Some(t)]))
      else None
    case _ => None
  }

  function Unlocked(s: World, ev: nat): World
    requires ev < |s.owners|
  {
    s.(owners := s.owners[ev := None])
  }

  function ReserveStep(s: World, t: nat, ev: nat): Option<World>
    requires t < |s.threads| && s.threads[t].op.Reserve? && ev < |s.events| && ev < |s.owners|
  {
    var req, e := s.threads[t].op.req, s.events[ev];
    match s.threads[t].pc
    case CheckBounds(_, i) =>
      if i >= |req| then Some(At(s, t, CheckSeats(ev, 0, 0)))
      else if req[i].row <= 0 || req[i].row > e.rows || req[i].col <= 0 || req[i].col > e.cols then
        Some(Complain(s, t, Refused(ev)))
      else Some(At(s, t, CheckBounds(ev, i + 1)))
    case CheckSeats(_, i, j) =>
      if i >= e.rows * e.cols then Some(At(s, t, TakeId(ev)))
      else if j >= |req| then Some(At(s, t, CheckSeats(ev, i + 1, 0)))
      else if MachineIndex(e.cols, req[j]) != i then Some(At(s, t, CheckSeats(ev, i, j + 1)))
      else if i >= |e.seats| then None
      else if e.seats[i] != 0 then Some(Complain(s, t, Refused(ev)))
      else Some(At(s, t, CheckSeats(ev, i + 1, 0)))
    case Refused(_) =>
      Some(Unlocked(Commit(s, t, false, Code(1)), ev))
    case TakeId(_) =>
      var rid := NextId(e.reservations);
      Some(At(s, t, WriteSeats(ev, 0, rid)).(events := s.events[ev := e.(reservations := rid)]))
    case WriteSeats(_, i, rid) =>
      if i >= |req| then Some(Unlocked(Commit(s, t, false, Code(0)), ev))
      else
        var c := MachineIndex(e.cols, req[i]);
        if c >= |e.seats| then None
        else Some(At(s, t, WriteSeats(ev, i + 1, rid)).(
                    events := s.events[ev := e.(seats := e.seats[c := rid])]))
    case _ => None
  }

  function ShowStep(s: World, t: nat, ev: nat, sent: seq<uint>): Option<World>
    requires t < |s.threads| && ev < |s.events| && ev < |s.owners|
  {
    var e := s.events[ev];
    if |sent| >= e.rows * e.cols then
      Some(Unlocked(Commit(s, t, false, Matrix(e.rows, e.cols, sent)), ev))
    else if |sent| >= |e.seats| then None
    else Some(At(s, t, SendSeats(ev, sent + [e.seats[|sent|]])))
  }

  function ListStep(s: World, t: nat): Option<World>
    requires t < |s.threads| && s.threads[t].op.ListEvents?
  {
    match s.threads[t].pc
    case Enter =>
      if s.writer.None? then Some(At(s, t, ListStart).(readers := s.readers + {t})) else None
    case ListStart =>
      if s.head.None? then Some(At(s, t, ListEmpty))
      else if s.tail.None? then None
      else Some(At(s, t, CountNodes(s.head.value, s.tail.value, 0)))
    case ListEmpty =>
      Some(Commit(s, t, false, Code(2)).(readers := s.readers - {t}))
    case CountNodes(cur, to, n) =>
      if cur == to then
        if s.head.None? then None else Some(At(s, t, SendIds(s.head.value, to, n + 1, [])))
      else if cur >= |s.nodes| || s.nodes[cur].next.None? then None
      else Some(At(s, t, CountNodes(s.nodes[cur].next.value, to, n + 1)))
    case SendIds(cur, to, n, sent) =>
      if cur >= |s.nodes| || s.nodes[cur].event >= |s.events| then None
      else
        var sent' := sent + [s.events[s.nodes[cur].event].id];
        if cur == to then Some(At(s, t, ListSent(n, sent')))
        else if s.nodes[cur].next.None? then None
        else Some(At(s, t, SendIds(s.nodes[cur].next.value, to, n, sent')))
    case ListSent(n, sent) =>
      Some(Commit(s, t, false, Ids(n, sent)).(readers := s.readers - {t}))
    case _ => None
  }

  /** A step inside a call that is silent: dispatch on the operation and the lock held. */
  function BodyStep(s: World, t: nat, c: Choice): Option<World>
    requires t < |s.threads|
  {
    var th := s.threads[t];
    match th.pc
    case Return(reply) =>
      Some(At(s, t, Idle).(history := s.history + [Returned(th.call, reply)]))
    case CheckBounds(ev, _) => EventStep(s, t, ev)
    case CheckSeats(ev, _, _) => EventStep(s, t, ev)
    case Refused(ev) => EventStep(s, t, ev)
    case TakeId(ev) => EventStep(s, t, ev)
    case WriteSeats(ev, _, _) => EventStep(s, t, ev)
    case SendSeats(ev, _) => EventStep(s, t, ev)
    case _ =>
      match th.op
      case Create(_, _, _) => CreateStep(s, t, c)
      case Reserve(_, _) => LookupStep(s, t)
      case Show(_) => LookupStep(s, t)
      case ListEvents => ListStep(s, t)
  }

  function EventStep(s: World, t: nat, ev: nat): Option<World>
    requires t < |s.threads|
  {
    if ev >= |s.events| || ev >= |s.owners| then None
    else if s.threads[t].op.Reserve? then ReserveStep(s, t, ev)
    else if s.threads[t].pc.SendSeats? then ShowStep(s, t, ev, s.threads[t].pc.sent)
    else None
  }

  function InvokeStep(s: World, t: nat, op: Op): World
    requires t < |s.threads|
  {
    s.(threads := s.threads[t := Thread(Enter, Silent, |s.history|, op)],
       history := s.history + [Invoked(op)])
  }

  /** The step thread `t` takes under a choice, if it can take one. */
  function Step(s: World, t: nat, c: Choice): Option<World>
    requires t < |s.threads|
  {
    var th := s.threads[t];
    if th.msg != Silent then (if c == Go then PrintStep(s, t) else None)
    else if th.pc.Idle? then
      (if c.Invoke? && ValidOp(c.op) then Some(InvokeStep(s, t, c.op)) else None)
    else if c.Invoke? then None
    else BodyStep(s, t, c)
  }

  ghost predicate Next(s: World, s': World) {
    exists t: nat, c :: t < |s.threads| && Step(s, t, c) == Some(s')
  }

  /** A run: a first state, then steps of any threads in any order. */
  ghost predicate IsRun(run: seq<World>) {
    && run != [] && Init(run[0])
    && forall i :: 0 <= i < |run| - 1 ==> Next(run[i], run[i + 1])
  }
}
