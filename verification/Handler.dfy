/** `handle_client` of the server's main.c: read an op code, read its fields, call the engine, reply. */
module Handler {
  import opened Common
  import opened Bytes
  import E = Ems
  import opened Pipes
  import opened Wire
  import opened Fields
  import opened Server

  /** The serial effect of one served operation on the state and on the response stream. */
  ghost predicate Served(before: E.State, written: seq<byte>, op: E.Op, fails: bool,
                         after: E.State, written': seq<byte>)
    requires E.Valid(before) && E.ValidOp(op)
  {
    after == E.Apply(before, op, fails).0 && written' == written + ReplyBytes(before, op, fails)
  }

  lemma ServedAlike(s: E.State, op: E.Op, fails: bool)
    requires E.Valid(s) && E.ValidOp(op) && !op.Create?
    ensures E.Apply(s, op, fails) == E.Apply(s, op, false) && ReplyBytes(s, op, fails) == ReplyBytes(s, op, false)
    ensures op.Show? || op.ListEvents? ==> E.Apply(s, op, fails).0 == s
  {
    E.OnlyCreateAllocates(s, op, fails);
  }

  /** case 3. */
  method HandleCreate(engine: Engine, request: Source<byte>, response: Sink<byte>, fails: bool)
    requires engine.Valid() && DecodeCreate(request.rest).Some?
    modifies request, response, engine.list, engine.list.nodes
    ensures engine.Valid() && engine.OnlyNew()
    ensures var got := DecodeCreate(old(request.rest)).value;
            && request.rest == got.rest
            && Served(old(engine.list.State()), old(response.written), got.value, fails,
                      engine.list.State(), response.written)
  {
    hide IntBytes, E.Valid, E.Apply, GetUint, GetSize, EventList.Valid, Values;
    var id := ReadUint(request);
    var rows := ReadSize(request);
    var cols := ReadSize(request);
    var result := engine.EmsCreate(id, rows, cols, fails, false);
    var _ := MyWrite(response, IntBytes(result));
  }

  /** Reading the fields of case 4 into the arrays. */
  method ReadReserve(request: Source<byte>, xs: array<size>, ys: array<size>) returns (id: uint, n: size)
    requires DecodeReserve(request.rest).Some?
    requires xs.Length == MAX_RESERVATION_SIZE && ys.Length == MAX_RESERVATION_SIZE && xs != ys
    modifies request, xs, ys
    ensures n <= MAX_RESERVATION_SIZE
    ensures DecodeReserve(old(request.rest))
         == Some(Got(E.Reserve(id, Pairs(xs[..n], ys[..n])), request.rest))
  {
    hide GetUint, GetSize, GetSizes, Pairs;
    id := ReadUint(request);
    n := ReadSize(request);
    ReadSizes(request, xs, n);
    ReadSizes(request, ys, n);
  }

  /** case 4; the arrays are the locals of the source. */
  method HandleReserve(engine: Engine, request: Source<byte>, response: Sink<byte>, xs: array<size>, ys: array<size>)
    requires engine.Valid() && DecodeReserve(request.rest).Some?
    requires xs.Length == MAX_RESERVATION_SIZE && ys.Length == MAX_RESERVATION_SIZE && xs != ys
    modifies request, response, xs, ys, engine.list.events, set e | e in engine.list.events :: e.data
    ensures engine.Valid()
    ensures var got := DecodeReserve(old(request.rest)).value;
            && request.rest == got.rest
            && Served(old(engine.list.State()), old(response.written), got.value, false,
                      engine.list.State(), response.written)
  {
    hide IntBytes, E.Valid, E.Apply, DecodeReserve, Pairs, EventList.Valid, Values;
    ghost var before := engine.list.State();
    var id, n := ReadReserve(request, xs, ys);
    assert engine.list.State() == before;
    var result := engine.EmsReserve(id, n, xs, ys);
    var _ := MyWrite(response, IntBytes(result));
  }

  /** One turn of the switch for an op code 3 to 6. */
  method HandleRequest(engine: Engine, request: Source<byte>, response: Sink<byte>, code: byte,
                       xs: array<size>, ys: array<size>, fails: bool)
    requires engine.Valid() && 3 <= code <= 6
    requires xs.Length == MAX_RESERVATION_SIZE && ys.Length == MAX_RESERVATION_SIZE && xs != ys
    requires GetInt(request.rest).Some? && DecodeBody(code, GetInt(request.rest).value.rest).Some?
    modifies request, response, xs, ys
    modifies engine.list, engine.list.nodes, engine.list.events, set e | e in engine.list.events :: e.data
    ensures engine.Valid() && engine.OnlyNew()
    ensures var got := DecodeBody(code, GetInt(old(request.rest)).value.rest).value;
            && request.rest == got.rest
            && Served(old(engine.list.State()), old(response.written), got.value, fails,
                      engine.list.State(), response.written)
  {
    hide E.Valid, E.Apply, GetInt, GetUint, DecodeCreate, DecodeReserve, EventList.Valid, Values, ReplyBytes;
    ghost var state := engine.list.State();
    var session := ReadInt(request);
    ghost var op := DecodeBody(code, request.rest).value.value;
    if !op.Create? { ServedAlike(state, op, fails); }
    if code == 3 {
      HandleCreate(engine, request, response, fails);
    } else if code == 4 {
      HandleReserve(engine, request, response, xs, ys);
    } else if code == 5 {
      var id := ReadUint(request);
      var _ := engine.EmsShow(response, id);
    } else {
      var _ := engine.EmsListEvents(response);
    }
  }

  /** How the session decoder and the serial service unfold by one request. */
  lemma ServeFirst(s: E.State, input: seq<byte>, fails: nat -> bool, k: nat)
    requires E.Valid(s) && DecodeSession(input).Some? && input != [] && 3 <= input[0] <= 6
    ensures GetInt(input[1..]).Some? && DecodeBody(input[0], GetInt(input[1..]).value.rest).Some?
    ensures var got := DecodeBody(input[0], GetInt(input[1..]).value.rest).value;
            var after := E.Apply(s, got.value, fails(k)).0;
            && |got.rest| < |input| && DecodeSession(got.rest).Some? && E.Valid(after)
            && var all, later := DecodeSession(input).value, DecodeSession(got.rest).value;
            && later.rest == all.rest
            && Serve(s, all.ops, fails, k).0 == Serve(after, later.ops, fails, k + 1).0
            && Serve(s, all.ops, fails, k).1
            == ReplyBytes(s, got.value, fails(k)) + Serve(after, later.ops, fails, k + 1).1
  {
    hide DecodeBody, ReplyBytes, E.Apply;
    var got := DecodeBody(input[0], GetInt(input[1..]).value.rest).value;
    E.ApplyValid(s, got.value, fails(k));
    var all, later := DecodeSession(input).value, DecodeSession(got.rest).value;
    assert all.ops == [got.value] + later.ops;
    assert all.ops[0] == got.value && all.ops[1..] == later.ops;
  }

  /** What is left to serve, and what it will still write, from a moment of the session. */
  ghost predicate Ahead(s: E.State, input: seq<byte>, fails: nat -> bool, k: nat, written: seq<byte>,
                        final: E.State, total: seq<byte>, rest: seq<byte>)
  {
    && E.Valid(s) && DecodeSession(input).Some? && DecodeSession(input).value.rest == rest
    && var later := Serve(s, DecodeSession(input).value.ops, fails, k);
    && later.0 == final && written + later.1 == total
  }

  lemma AheadStart(s: E.State, input: seq<byte>, fails: nat -> bool, written: seq<byte>)
    requires E.Valid(s) && DecodeSession(input).Some?
    ensures var session := DecodeSession(input).value;
            var outcome := Serve(s, session.ops, fails, 0);
            Ahead(s, input, fails, 0, written, outcome.0, written + outcome.1, session.rest)
  {
  }

  lemma AheadNext(s: E.State, input: seq<byte>, fails: nat -> bool, k: nat, written: seq<byte>,
                  final: E.State, total: seq<byte>, rest: seq<byte>)
    requires Ahead(s, input, fails, k, written, final, total, rest) && input != [] && 3 <= input[0] <= 6
    ensures GetInt(input[1..]).Some? && DecodeBody(input[0], GetInt(input[1..]).value.rest).Some?
    ensures var got := DecodeBody(input[0], GetInt(input[1..]).value.rest).value;
            && |got.rest| < |input|
            && Ahead(E.Apply(s, got.value, fails(k)).0, got.rest, fails, k + 1,
                     written + ReplyBytes(s, got.value, fails(k)), final, total, rest)
  {
    hide DecodeBody, DecodeSession, ReplyBytes, Serve, GetInt, E.Apply, E.Valid;
    ServeFirst(s, input, fails, k);
    var got := DecodeBody(input[0], GetInt(input[1..]).value.rest).value;
    var after := E.Apply(s, got.value, fails(k)).0;
    var later := Serve(after, DecodeSession(got.rest).value.ops, fails, k + 1);
    assert written + (ReplyBytes(s, got.value, fails(k)) + later.1)
        == written + ReplyBytes(s, got.value, fails(k)) + later.1;
  }

  lemma AheadSkip(s: E.State, input: seq<byte>, fails: nat -> bool, k: nat, written: seq<byte>,
                  final: E.State, total: seq<byte>, rest: seq<byte>)
    requires Ahead(s, input, fails, k, written, final, total, rest) && input != []
    requires input[0] != 2 && !(3 <= input[0] <= 6)
    ensures Ahead(s, input[1..], fails, k, written, final, total, rest)
  {
  }

  lemma AheadEnd(s: E.State, input: seq<byte>, fails: nat -> bool, k: nat, written: seq<byte>,
                 final: E.State, total: seq<byte>, rest: seq<byte>)
    requires Ahead(s, input, fails, k, written, final, total, rest) && (input == [] || input[0] == 2)
    ensures s == final && written == total && rest == if input == [] then [] else input[1..]
  {
  }

  /** One turn of the server loop; `more` is the loop condition. */
  method Turn(engine: Engine, request: Source<byte>, response: Sink<byte>, opCode: array<byte>,
              xs: array<size>, ys: array<size>, fails: nat -> bool, k: nat,
              ghost final: E.State, ghost total: seq<byte>, ghost rest: seq<byte>) returns (more: bool, next: nat)
    requires engine.Valid() && opCode.Length == 1
    requires xs.Length == MAX_RESERVATION_SIZE && ys.Length == MAX_RESERVATION_SIZE && xs != ys
    requires Ahead(engine.list.State(), request.rest, fails, k, response.written, final, total, rest)
    modifies request, response, opCode, xs, ys
    modifies engine.list, engine.list.nodes, engine.list.events, set e | e in engine.list.events :: e.data
    ensures engine.Valid() && engine.OnlyNew()
    ensures more ==> |request.rest| < |old(request.rest)|
                     && Ahead(engine.list.State(), request.rest, fails, next, response.written, final, total, rest)
    ensures !more ==> engine.list.State() == final && response.written == total && request.rest == rest
  {
    hide E.Valid, EventList.Valid, Values, DecodeBody, GetInt, ReplyBytes, Serve, DecodeSession, E.Apply, Ahead;
    ghost var input, state, written := request.rest, engine.list.State(), response.written;
    next := k;
    var got := MyRead(request, opCode, 1);
    assert engine.list.State() == state;
    assert got > 0 ==> opCode[0] == input[0] && request.rest == input[1..];
    if got == 0 || opCode[0] == 2 {
      AheadEnd(state, input, fails, k, written, final, total, rest);
      return false, next;
    }
    if 3 <= opCode[0] <= 6 {
      AheadNext(state, input, fails, k, written, final, total, rest);
      HandleRequest(engine, request, response, opCode[0], xs, ys, fails(k));
      next := k + 1;
    } else {
      AheadSkip(state, input, fails, k, written, final, total, rest);
    }
    more := true;
  }

  method Loop(engine: Engine, request: Source<byte>, response: Sink<byte>, opCode: array<byte>,
              xs: array<size>, ys: array<size>, fails: nat -> bool,
              ghost final: E.State, ghost total: seq<byte>, ghost rest: seq<byte>)
    requires engine.Valid() && opCode.Length == 1
    requires xs.Length == MAX_RESERVATION_SIZE && ys.Length == MAX_RESERVATION_SIZE && xs != ys
    requires Ahead(engine.list.State(), request.rest, fails, 0, response.written, final, total, rest)
    modifies request, response, opCode, xs, ys
    modifies engine.list, engine.list.nodes, engine.list.events, set e | e in engine.list.events :: e.data
    ensures engine.Valid()
    ensures engine.list.State() == final && response.written == total && request.rest == rest
  {
    hide E.Valid, EventList.Valid, Values, Serve, DecodeSession, E.Apply, Ahead;
    var k, more := 0, true;
    while more
      invariant engine.Valid() && engine.OnlyNew()
      invariant more ==> Ahead(engine.list.State(), request.rest, fails, k, response.written, final, total, rest)
      invariant !more ==> engine.list.State() == final && response.written == total && request.rest == rest
      decreases more, |request.rest|
    {
      more, k := Turn(engine, request, response, opCode, xs, ys, fails, k, final, total, rest);
    }
  }

  /**
   * The server loop: whatever complete requests arrive, for any chunking, the state and the response
   * stream end up as if the decoded operations had been served one after the other; the loop stops at
   * op code 2 without reading further. `fails(k)` is the outcome of the allocations for request `k`.
   */
  method HandleClient(engine: Engine, request: Source<byte>, response: Sink<byte>, fails: nat -> bool)
    requires engine.Valid() && DecodeSession(request.rest).Some?
    modifies request, response
    modifies engine.list, engine.list.nodes, engine.list.events, set e | e in engine.list.events :: e.data
    ensures engine.Valid()
    ensures var session := DecodeSession(old(request.rest)).value;
            var outcome := Serve(old(engine.list.State()), session.ops, fails, 0);
            && request.rest == session.rest
            && engine.list.State() == outcome.0
            && response.written == old(response.written) + outcome.1
  {
    hide E.Valid, EventList.Valid, Values, Serve, DecodeSession, E.Apply, Ahead;
    ghost var session := DecodeSession(request.rest).value;
    ghost var outcome := Serve(engine.list.State(), session.ops, fails, 0);
    AheadStart(engine.list.State(), request.rest, fails, response.written);
    ghost var state := engine.list.State();
    var xs := new size[MAX_RESERVATION_SIZE](i => 0);
    var ys := new size[MAX_RESERVATION_SIZE](i => 0);
    var opCode := new byte[1](i => 0);
    assert engine.list.State() == state;
    Loop(engine, request, response, opCode, xs, ys, fails, outcome.0, response.written + outcome.1, session.rest);
  }
}
