/** eventlist.c and operations.c on the heap: events, list nodes, the list and the engine's calls. */
module Server {
  import opened Common
  import opened Bytes
  import opened Seats
  import E = Ems
  import opened Scan
  import opened Pipes
  import opened Wire

  lemma Gather(w: seq<byte>, a: seq<byte>, b: seq<byte>, c: seq<byte>, d: seq<byte>)
    ensures w + a + b + c + d == w + (a + (b + (c + d)))
  {
  }

  class Event {
    const id: uint
    const rows: size
    const cols: size
    var reservations: uint
    const data: array<uint>

    ghost predicate Valid() {
      rows * cols <= SIZE_MAX && data.Length == rows * cols
    }

    ghost function Value(): (e: E.Event)
      reads this, data
      ensures Valid() ==> E.ValidEvent(e)
    {
      E.Event(id, rows, cols, reservations, data[..])
    }

    constructor (id: uint, rows: size, cols: size)
      requires rows * cols <= SIZE_MAX
      ensures Valid() && fresh(data)
      ensures Value() == E.NewEvent(id, rows, cols)
    {
      this.id := id;
      this.rows := rows;
      this.cols := cols;
      this.reservations := 0;
      this.data := new uint[rows * cols](i => 0);
      new;
      assert data[..] == seq(rows * cols, i => 0);
    }

    /** The first loop of ems_reserve: is every pair inside the grid? */
    method CheckBounds(n: nat, xs: array<size>, ys: array<size>) returns (ok: bool)
      requires n <= xs.Length && n <= ys.Length
      ensures ok <==> E.AllInGrid(Value(), Pairs(xs[..n], ys[..n]))
    {
      ghost var req := Pairs(xs[..n], ys[..n]);
      var i := 0;
      while i < n
        invariant 0 <= i <= n
        invariant E.AllInGrid(Value(), req[..i])
      {
        assert req[i] == Seat(xs[i], ys[i]) && req[i] in req;
        if xs[i] <= 0 || xs[i] > rows || ys[i] <= 0 || ys[i] > cols {
          return false;
        }
        assert req[..i + 1] == req[..i] + [req[i]];
        i := i + 1;
      }
      assert req[..n] == req;
      ok := true;
    }

    /** The nested loop of ems_reserve: for each cell, does some pair name it while it is taken? */
    method CheckSeats(n: nat, xs: array<size>, ys: array<size>) returns (ok: bool)
      requires Valid() && n <= xs.Length && n <= ys.Length
      requires E.AllInGrid(Value(), Pairs(xs[..n], ys[..n]))
      ensures ok <==> E.Accepts(Value(), Pairs(xs[..n], ys[..n]))
    {
      ghost var req, e := Pairs(xs[..n], ys[..n]), Value();
      var i := 0;
      while i < rows * cols
        invariant 0 <= i <= rows * cols
        invariant FreeBelow(e, req, i)
      {
        var j := 0;
        while j < n
          invariant 0 <= j <= n
          invariant forall k :: 0 <= k < j ==> Index(cols, req[k]) != i
        {
          ScanTurn(e, req, i, j);
          if MachineIndex(cols, Seat(xs[j], ys[j])) != i {
            j := j + 1;
            continue;
          }
          if data[i] != 0 {
            return false;
          }
          break;
        }
        ScanTurn(e, req, i, j);
        i := i + 1;
      }
      ScanTurn(e, req, i, 0);
      ok := true;
    }

    /** The counter and the write loop of ems_reserve. */
    method WriteSeats(n: nat, xs: array<size>, ys: array<size>)
      requires Valid() && n <= xs.Length && n <= ys.Length
      requires E.Accepts(Value(), Pairs(xs[..n], ys[..n]))
      modifies this`reservations, data
      ensures Value() == E.Granted(old(Value()), Pairs(xs[..n], ys[..n]))
    {
      ghost var req, e := Pairs(xs[..n], ys[..n]), Value();
      MarkNothing(e);
      assert req[..0] == [];
      reservations := E.NextId(reservations);
      var i := 0;
      while i < n
        invariant 0 <= i <= n
        invariant Value() == E.Granted(e, req[..i])
      {
        MarkOneMore(e, req, i);
        data[MachineIndex(cols, Seat(xs[i], ys[i]))] := reservations;
        i := i + 1;
      }
      assert req[..n] == req;
    }

    /** The section of ems_reserve under the event's mutex: all or nothing, exactly on free seats in the grid. */
    method ReserveSeats(n: nat, xs: array<size>, ys: array<size>) returns (result: int)
      requires Valid() && n <= xs.Length && n <= ys.Length
      modifies this`reservations, data
      ensures var req := Pairs(xs[..n], ys[..n]);
              if E.Accepts(old(Value()), req)
              then result == 0 && Value() == E.Granted(old(Value()), req)
              else result == 1 && Value() == old(Value())
    {
      var inside := CheckBounds(n, xs, ys);
      if !inside {
        return 1;
      }
      var free := CheckSeats(n, xs, ys);
      if !free {
        return 1;
      }
      WriteSeats(n, xs, ys);
      result := 0;
    }

    /** The section of ems_show under the event's mutex: code, dimensions, then the flat array word by word. */
    method SendSeats(fd: Sink<byte>)
      requires Valid()
      modifies fd
      ensures fd.written == old(fd.written) + EncodeReply(E.Matrix(rows, cols, data[..]))
    {
      hide IntBytes, SizeBytes, UintBytes, UintsBytes;
      ghost var before := fd.written;
      var _ := MyWrite(fd, IntBytes(0));
      var _ := MyWrite(fd, SizeBytes(rows));
      var _ := MyWrite(fd, SizeBytes(cols));
      ghost var header := fd.written;
      assert data[..0] == [] && UintsBytes([]) == [];
      var i := 0;
      while i < rows * cols
        invariant 0 <= i <= rows * cols
        invariant fd.written == header + UintsBytes(data[..i])
      {
        var _ := MyWrite(fd, UintBytes(data[i]));
        UintsBytesSnoc(data[..i], data[i]);
        assert data[..i + 1] == data[..i] + [data[i]];
        i := i + 1;
      }
      assert data[..i] == data[..];
      Gather(before, IntBytes(0), SizeBytes(rows), SizeBytes(cols), UintsBytes(data[..]));
    }

    /** ems_show_stdout: the nested loops over rows and columns visit the array in the same order. */
    method NestedScan() returns (seen: seq<uint>)
      requires Valid()
      ensures seen == data[..]
    {
      seen := [];
      var i := 1;
      while i <= rows
        invariant 1 <= i <= rows + 1
        invariant (i - 1) * cols <= data.Length && seen == data[..(i - 1) * cols]
      {
        var j := 1;
        while j <= cols
          invariant 1 <= j <= cols + 1
          invariant 0 <= (i - 1) * cols + j - 1 <= data.Length && seen == data[..(i - 1) * cols + j - 1]
        {
          IndexInRange(rows, cols, Seat(i, j));
          IndexDoesNotWrap(rows, cols, Seat(i, j));
          seen := seen + [data[MachineIndex(cols, Seat(i, j))]];
          j := j + 1;
        }
        assert i * cols == (i - 1) * cols + cols;
        i := i + 1;
      }
      assert i - 1 == rows;
    }
  }

  class ListNode {
    const event: Event
    var next: ListNode?

    constructor (event: Event)
      ensures this.event == event && next == null
    {
      this.event := event;
      this.next := null;
    }
  }

  /** The values of a sequence of event objects. */
  ghost function Values(events: seq<Event>): (r: E.State)
    reads events, set e | e in events :: e.data
    ensures |r| == |events| && forall i :: 0 <= i < |events| ==> r[i] == events[i].Value()
  {
    if events == [] then [] else Values(events[..|events| - 1]) + [events[|events| - 1].Value()]
  }

  lemma ValuesSnoc(events: seq<Event>, event: Event)
    ensures Values(events + [event]) == Values(events) + [event.Value()]
  {
    assert (events + [event])[..|events|] == events;
  }

  /** The nodes carry distinct, well-formed events. */
  ghost predicate Carry(nodes: seq<ListNode>, events: seq<Event>) {
    && |nodes| == |events|
    && (forall i :: 0 <= i < |nodes| ==> nodes[i].event == events[i])
    && (forall i :: 0 <= i < |events| ==> events[i].Valid())
    && (forall i, j :: 0 <= i < j < |events| ==> events[i] != events[j] && events[i].data != events[j].data)
  }

  lemma CarrySnoc(nodes: seq<ListNode>, events: seq<Event>, node: ListNode)
    requires Carry(nodes, events) && node.event.Valid()
    requires forall e :: e in events ==> e != node.event && e.data != node.event.data
    ensures Carry(nodes + [node], events + [node.event])
  {
  }

  class EventList {
    var head: ListNode?
    var tail: ListNode?
    ghost var nodes: seq<ListNode>
    ghost var events: seq<Event>

    /** The nodes reached from head are `nodes`, in order and without repetition, and tail is the last. */
    ghost predicate Linked()
      reads this`head, this`tail, this`nodes, nodes
    {
      && head == (if nodes == [] then null else nodes[0])
      && tail == (if nodes == [] then null else nodes[|nodes| - 1])
      && (forall i :: 0 <= i < |nodes| ==> nodes[i].next == if i + 1 < |nodes| then nodes[i + 1] else null)
      && (forall i, j :: 0 <= i < j < |nodes| ==> nodes[i] != nodes[j])
    }

    ghost predicate Valid()
      reads this, nodes
    {
      Linked() && Carry(nodes, events)
    }

    ghost function State(): E.State
      reads this`events, events, set e | e in events :: e.data
    {
      Values(events)
    }

    /** create_list. */
    constructor ()
      ensures Valid() && nodes == [] && events == [] && State() == []
    {
      head := null;
      tail := null;
      nodes := [];
      events := [];
    }

    /** append_to_list; `fails` is the failure of its allocation. Old nodes and events stay where they are. */
    method Append(event: Event, fails: bool) returns (result: int)
      requires Valid() && event.Valid()
      requires forall e :: e in events ==> e != event && e.data != event.data
      modifies this, nodes
      ensures Valid()
      ensures old(nodes) <= nodes && forall i :: |old(nodes)| <= i < |nodes| ==> fresh(nodes[i])
      ensures fails ==> result == 1 && events == old(events) && State() == old(State())
      ensures !fails ==> result == 0 && events == old(events) + [event] && State() == old(State()) + [event.Value()]
    {
      hide Linked, Carry, Values;
      if fails {
        return 1;
      }
      ghost var before := events;
      var node := new ListNode(event);
      CarrySnoc(nodes, events, node);
      Link(node);
      events := events + [event];
      ValuesSnoc(before, event);
      result := 0;
    }

    /** The pointer writes of append_to_list. */
    method Link(node: ListNode)
      requires Linked() && node !in nodes && node.next == null
      modifies this`head, this`tail, this`nodes, nodes
      ensures Linked() && nodes == old(nodes) + [node]
    {
      if head == null {
        head := node;
        tail := node;
      } else {
        tail.next := node;
        tail := node;
      }
      nodes := nodes + [node];
    }

    /** get_event on the nodes from position `a` to position `b`: the first event there with the id. */
    method GetEvent(id: uint, from: ListNode?, to: ListNode?, ghost a: nat, ghost b: nat) returns (event: Event?)
      requires Valid()
      requires from != null && to != null ==> a <= b < |nodes| && from == nodes[a] && to == nodes[b]
      ensures event == null <==> (from == null || to == null || forall i :: a <= i <= b ==> events[i].id != id)
      ensures event != null ==> exists i :: a <= i <= b && events[i] == event && event.id == id
                                  && forall j :: a <= j < i ==> events[j].id != id
    {
      if from == null || to == null {
        return null;
      }
      var current: ListNode := from;
      ghost var i := a;
      while true
        invariant a <= i <= b < |nodes| && current == nodes[i]
        invariant forall j :: a <= j < i ==> events[j].id != id
        decreases b - i
      {
        if current.event.id == id {
          return current.event;
        }
        if current == to {
          return null;
        }
        assert current.next == nodes[i + 1];
        current := current.next;
        i := i + 1;
      }
    }
  }

  /** The server state behind the calls of operations.c, each proved to do what the serial engine does. */
  class Engine {
    const list: EventList

    ghost predicate Valid()
      reads list, list.nodes, list.events, set e | e in list.events :: e.data
    {
      list.Valid() && E.Valid(list.State())
    }

    constructor ()
      ensures Valid() && list.State() == [] && fresh(list)
      ensures list.nodes == [] && list.events == []
    {
      list := new EventList();
    }

    /** What the state gained since an earlier moment is newly allocated. */
    twostate predicate OnlyNew()
      reads list
    {
      && old(list.nodes) <= list.nodes && old(list.events) <= list.events
      && (forall i :: |old(list.nodes)| <= i < |list.nodes| ==> fresh(list.nodes[i]))
      && (forall i :: |old(list.events)| <= i < |list.events| ==> fresh(list.events[i]) && fresh(list.events[i].data))
    }

    /** The lookup every call starts with: the event whose id is asked for, wherever it is in the list. */
    method Lookup(id: uint) returns (event: Event?)
      requires Valid()
      ensures event == null <==> E.Find(list.State(), id).None?
      ensures event != null ==>
                && event == list.events[E.Find(list.State(), id).value] && event in list.events
                && event.Valid() && event.Value() == list.State()[E.Find(list.State(), id).value]
    {
      event := list.GetEvent(id, list.head, list.tail, 0, if list.nodes == [] then 0 else |list.nodes| - 1);
      if event != null {
        ghost var i :| 0 <= i < |list.events| && list.events[i] == event;
        E.FindIs(list.State(), id, i);
      }
    }

    method EmsCreate(id: uint, rows: size, cols: size, eventFails: bool, nodeFails: bool) returns (result: int32)
      requires Valid() && rows * cols <= SIZE_MAX
      modifies list, list.nodes
      ensures Valid()
      ensures var after := E.Apply(old(list.State()), E.Create(id, rows, cols), eventFails || nodeFails);
              list.State() == after.0 && E.Code(result) == after.1
      ensures OnlyNew()
    {
      hide EventList.Valid, Values, E.Find, E.NewEvent;
      ghost var before := list.State();
      var found := Lookup(id);
      if found != null || eventFails {
        return 1;
      }
      E.ApplyValid(before, E.Create(id, rows, cols), nodeFails);
      var event := new Event(id, rows, cols);
      assert list.State() == before;
      result := list.Append(event, nodeFails);
    }

    /** ems_reserve on the event that was found: only that event changes. */
    method ReserveFound(event: Event, ghost i: nat, n: nat, xs: array<size>, ys: array<size>) returns (result: int32)
      requires Valid() && n <= xs.Length && n <= ys.Length
      requires i < |list.events| && event == list.events[i]
      modifies event`reservations, event.data
      ensures list.Valid()
      ensures var e, req := old(list.State())[i], Pairs(xs[..n], ys[..n]);
              && E.ValidEvent(e)
              && if E.Accepts(e, req) then result == 0 && list.State() == old(list.State())[i := E.Granted(e, req)]
                 else result == 1 && list.State() == old(list.State())
    {
      hide E.Find, E.Accepts, E.Granted, Pairs, Values;
      ghost var before := list.State();
      assert event.Valid() && event.Value() == before[i];
      result := event.ReserveSeats(n, xs, ys);
      forall j | 0 <= j < |list.events| && j != i ensures list.events[j].Value() == before[j] {
        assert list.events[j] != event && list.events[j].data != event.data;
      }
      assert list.State() == before[i := event.Value()];
    }

    method EmsReserve(id: uint, n: nat, xs: array<size>, ys: array<size>) returns (result: int32)
      requires Valid() && n <= xs.Length && n <= ys.Length
      modifies list.events, set e | e in list.events :: e.data
      ensures Valid()
      ensures var after := E.Apply(old(list.State()), E.Reserve(id, Pairs(xs[..n], ys[..n])), false);
              list.State() == after.0 && E.Code(result) == after.1
    {
      hide E.Find, E.Accepts, E.Granted, E.Valid, Pairs, Values, EventList.Valid;
      var event := Lookup(id);
      if event == null {
        return 1;
      }
      E.ApplyValid(list.State(), E.Reserve(id, Pairs(xs[..n], ys[..n])), false);
      result := ReserveFound(event, E.Find(list.State(), id).value, n, xs, ys);
    }

    method EmsShow(fd: Sink<byte>, id: uint) returns (result: int)
      requires Valid()
      modifies fd
      ensures fd.written == old(fd.written) + ReplyBytes(old(list.State()), E.Show(id), false)
      ensures result == if E.Find(old(list.State()), id).Some? then 0 else 1
    {
      hide IntBytes, SizeBytes, UintsBytes, E.Valid, E.Find, EventList.Valid, Values;
      var event := Lookup(id);
      if event == null {
        var _ := MyWrite(fd, IntBytes(1));
        return 1;
      }
      event.SendSeats(fd);
      result := 0;
    }

    method EmsListEvents(fd: Sink<byte>) returns (result: int)
      requires Valid()
      modifies fd
      ensures fd.written == old(fd.written) + ReplyBytes(old(list.State()), E.ListEvents, false)
      ensures result == if old(list.State()) == [] then 1 else 0
    {
      hide IntBytes, SizeBytes, UintBytes, UintsBytes, E.Valid, Values;
      E.EventCountFits(list.State());
      var to, current := list.tail, list.head;
      if current == null {
        var _ := MyWrite(fd, IntBytes(2));
        return 1;
      }
      ghost var before, ids := fd.written, E.IdsOf(list.State());
      var _ := MyWrite(fd, IntBytes(0));
      var count := CountNodes(current, to);
      var _ := MyWrite(fd, SizeBytes(count));
      SendIds(fd, list.head, to);
      Gather(before, IntBytes(0), SizeBytes(count), UintsBytes(ids), []);
      result := 0;
    }

    /** The sending loop of ems_list_events. */
    method SendIds(fd: Sink<byte>, from: ListNode, to: ListNode?)
      requires list.Valid() && from == list.head && to == list.tail
      modifies fd
      ensures fd.written == old(fd.written) + UintsBytes(E.IdsOf(old(list.State())))
    {
      hide UintBytes, UintsBytes, Values;
      var current := from;
      ghost var i, before, ids, n := 0, fd.written, E.IdsOf(list.State()), |list.nodes|;
      assert ids[..0] == [] && UintsBytes([]) == [];
      while true
        invariant 0 <= i < n && current == list.nodes[i]
        invariant fd.written == before + UintsBytes(ids[..i])
        decreases n - i
      {
        assert current.event.id == ids[i];
        var _ := MyWrite(fd, UintBytes(current.event.id));
        UintsBytesSnoc(ids[..i], ids[i]);
        assert ids[..i + 1] == ids[..i] + [ids[i]];
        if current == to {
          assert ids[..i + 1] == ids;
          break;
        }
        assert current.next == list.nodes[i + 1];
        current := current.next;
        i := i + 1;
      }
    }

    /** The counting loop of ems_list_events. */
    method CountNodes(from: ListNode, to: ListNode?) returns (count: nat)
      requires list.Valid() && from == list.head && to == list.tail
      ensures count == |list.nodes|
    {
      var current := from;
      count := 0;
      while true
        invariant count < |list.nodes| && current == list.nodes[count]
        decreases |list.nodes| - count
      {
        count := count + 1;
        if current == to {
          break;
        }
        assert count < |list.nodes|;
        current := current.next;
      }
    }
  }
}
