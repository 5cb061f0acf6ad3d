/** The client's side of the protocol (api.c): write a request, read the reply, print it. */
module Api {
  import opened Common
  import opened Bytes
  import opened Ems
  import opened Numbers
  import opened Pipes
  import opened Wire
  import opened Fields
  import opened Output

  lemma Chain<T>(w: seq<T>, a: seq<T>, b: seq<T>, c: seq<T>)
    ensures w + a + b + c == w + (a + (b + c))
  {
  }

  // ---- Words still to be read --------------------------------------------------------------------------

  /** The input goes on with these words. */
  ghost predicate Pending(rest: seq<byte>, words: seq<uint>, after: seq<byte>) {
    rest == UintsBytes(words) + after
  }

  lemma {:induction false} UintsPending(b: seq<byte>, n: nat)
    requires GetUints(b, n).Some?
    ensures Pending(b, GetUints(b, n).value.value, GetUints(b, n).value.rest)
  {
    BytesOfUints(b[..4 * n], n);
  }

  lemma {:induction false} BytesOfUints(b: seq<byte>, n: nat)
    requires |b| == 4 * n
    ensures UintsBytes(UintsFrom(b, n)) == b
  {
    if n > 0 {
      EncodeDecode(b[..4]);
      BytesOfUints(b[4..], n - 1);
      assert UintsFrom(b, n)[1..] == UintsFrom(b[4..], n - 1);
      assert b == b[..4] + b[4..];
    }
  }

  lemma TakeWord(rest: seq<byte>, words: seq<uint>, after: seq<byte>)
    requires Pending(rest, words, after) && words != []
    ensures GetUint(rest).Some? && GetUint(rest).value.value == words[0]
    ensures Pending(GetUint(rest).value.rest, words[1..], after)
  {
    GetUintBytes(words[0], UintsBytes(words[1..]) + after);
    Associate(UintBytes(words[0]), UintsBytes(words[1..]), after);
  }

  // ---- Printing ------------------------------------------------------------------------------------------

  /** The inner loop of the client's ems_show: reads one row of seats and prints it. */
  method PrintRow(resp: Source<byte>, out: Sink<char>, cols: size, ghost cells: seq<uint>, ghost after: seq<byte>)
    requires |cells| == cols && Pending(resp.rest, cells, after)
    modifies resp, out
    ensures resp.rest == after
    ensures out.written == old(out.written) + RowText(cells)
  {
    hide Pending, GetUint, Decimal;
    ghost var left := cells;
    ghost var total := out.written + RowText(cells);
    var j := 0;
    while j < cols
      invariant j + |left| == cols && Pending(resp.rest, left, after)
      invariant out.written + RowText(left) == total
    {
      TakeWord(resp.rest, left, after);
      var seat := ReadUint(resp);
      ghost var w := out.written;
      PrintUint(out, seat);
      var _ := MyWrite(out, " ");
      Chain(w, Decimal(seat), " ", RowText(left[1..]));
      left := left[1..];
      j := j + 1;
    }
    NothingPending(resp.rest, after);
  }

  lemma NothingPending(rest: seq<byte>, after: seq<byte>)
    requires Pending(rest, [], after)
    ensures rest == after
  {
  }

  lemma PendingSplits(rest: seq<byte>, a: seq<uint>, b: seq<uint>, after: seq<byte>)
    requires Pending(rest, a + b, after)
    ensures Pending(rest, a, UintsBytes(b) + after)
  {
    UintsBytesConcat(a, b);
    Associate(UintsBytes(a), UintsBytes(b), after);
  }

  lemma {:induction false} UintsBytesConcat(a: seq<uint>, b: seq<uint>)
    ensures UintsBytes(a + b) == UintsBytes(a) + UintsBytes(b)
  {
    if a == [] {
      assert a + b == b;
    } else {
      assert (a + b)[1..] == a[1..] + b;
      UintsBytesConcat(a[1..], b);
    }
  }

  /** The outer loop: all rows. */
  method PrintRows(resp: Source<byte>, out: Sink<char>, rows: size, cols: size,
                   ghost cells: seq<uint>, ghost after: seq<byte>)
    requires |cells| == rows * cols && Pending(resp.rest, cells, after)
    modifies resp, out
    ensures resp.rest == after
    ensures out.written == old(out.written) + RowsText(cells, rows, cols)
  {
    hide Pending, RowText, UintsBytes;
    ghost var left := cells;
    ghost var total := out.written + RowsText(cells, rows, cols);
    var i := 0;
    while i < rows
      invariant i <= rows && |left| == (rows - i) * cols && Pending(resp.rest, left, after)
      invariant out.written + RowsText(left, rows - i, cols) == total
    {
      FirstRow(left, rows - i, cols);
      ghost var row, later := left[..cols], left[cols..];
      assert left == row + later;
      PendingSplits(resp.rest, row, later, after);
      ghost var w := out.written;
      PrintRow(resp, out, cols, row, UintsBytes(later) + after);
      var _ := MyWrite(out, "\n");
      Chain(w, RowText(row), "\n", RowsText(later, rows - i - 1, cols));
      assert Pending(resp.rest, later, after) by { Unread(later, after); }
      left := later;
      i := i + 1;
    }
    assert left == [];
    NothingPending(resp.rest, after);
  }

  lemma Unread(words: seq<uint>, after: seq<byte>)
    ensures Pending(UintsBytes(words) + after, words, after)
  {
  }

  lemma FirstRow(cells: seq<uint>, rows: nat, cols: nat)
    requires |cells| == rows * cols && rows > 0
    ensures cols <= |cells| && |cells| - cols == (rows - 1) * cols
    ensures RowsText(cells, rows, cols) == RowText(cells[..cols]) + ("\n" + RowsText(cells[cols..], rows - 1, cols))
  {
  }

  /** The loop of the client's ems_list_events. */
  method PrintIds(resp: Source<byte>, out: Sink<char>, n: size, ghost ids: seq<uint>, ghost after: seq<byte>)
    requires |ids| == n && Pending(resp.rest, ids, after)
    modifies resp, out
    ensures resp.rest == after
    ensures out.written == old(out.written) + IdsText(ids)
  {
    hide Pending, GetUint, Decimal;
    ghost var left := ids;
    ghost var total := out.written + IdsText(ids);
    var i := 0;
    while i < n
      invariant i + |left| == n && Pending(resp.rest, left, after)
      invariant out.written + IdsText(left) == total
    {
      TakeWord(resp.rest, left, after);
      var id := ReadUint(resp);
      ghost var w := out.written;
      ghost var end := if |left| > 1 then "\n" else "";
      var _ := MyWrite(out, "Event: ");
      PrintUint(out, id);
      if i < n - 1 {
        var _ := MyWrite(out, "\n");
      }
      assert out.written == w + "Event: " + Decimal(id) + end;
      Chain(w, "Event: ", Decimal(id), end);
      NextId(w, id, left);
      left := left[1..];
      i := i + 1;
    }
    NothingPending(resp.rest, after);
    var _ := MyWrite(out, "\n");
  }

  lemma NextId(w: seq<char>, id: uint, ids: seq<uint>)
    requires ids != [] && ids[0] == id
    ensures var end := if |ids| > 1 then "\n" else "";
            w + IdsText(ids) == w + ("Event: " + (Decimal(id) + end)) + IdsText(ids[1..])
  {
    var end := if |ids| > 1 then "\n" else "";
    var later := IdsText(ids[1..]);
    Associate(Decimal(id), end, later);
    Associate("Event: ", Decimal(id) + end, later);
    Associate(w, "Event: " + (Decimal(id) + end), later);
  }

  // ---- The calls ---------------------------------------------------------------------------------------------

  /** The client's `session` and its two pipes. */
  class Client {
    const session: int32
    const req: Sink<byte>
    const resp: Source<byte>

    constructor (session: int32, req: Sink<byte>, resp: Source<byte>)
      ensures this.session == session && this.req == req && this.resp == resp
    {
      this.session, this.req, this.resp := session, req, resp;
    }

    /** The op code and session id every request starts with. */
    method Start(code: byte)
      modifies req
      ensures req.written == old(req.written) + ([code] + IntBytes(session))
    {
      var _ := MyWrite(req, [code]);
      var _ := MyWrite(req, IntBytes(session));
    }

    method EmsQuit()
      modifies req
      ensures req.written == old(req.written) + EncodeQuit(session)
    {
      Start(2);
    }

    method EmsCreate(id: uint, rows: size, cols: size) returns (result: int)
      requires Sendable(Create(id, rows, cols)) && DecodeReply(Create(id, rows, cols), resp.rest).Some?
      modifies req, resp
      ensures req.written == old(req.written) + EncodeRequest(session, Create(id, rows, cols))
      ensures Answer(Code(result), resp.rest) == DecodeReply(Create(id, rows, cols), old(resp.rest)).value
    {
      hide IntBytes, UintBytes, SizeBytes, GetInt;
      ghost var w := req.written;
      Start(3);
      var _ := MyWrite(req, UintBytes(id));
      var _ := MyWrite(req, SizeBytes(rows));
      var _ := MyWrite(req, SizeBytes(cols));
      Chain(w + ([3] + IntBytes(session)), UintBytes(id), SizeBytes(rows), SizeBytes(cols));
      Framed(w, 3, session, RequestBody(Create(id, rows, cols)));
      result := ReadInt(resp);
    }

    method EmsReserve(id: uint, n: size, xs: array<size>, ys: array<size>) returns (result: int)
      requires n <= MAX_RESERVATION_SIZE && n <= xs.Length && n <= ys.Length
      requires DecodeReply(Reserve(id, Pairs(xs[..n], ys[..n])), resp.rest).Some?
      modifies req, resp
      ensures req.written == old(req.written) + EncodeRequest(session, Reserve(id, Pairs(xs[..n], ys[..n])))
      ensures Answer(Code(result), resp.rest)
           == DecodeReply(Reserve(id, Pairs(xs[..n], ys[..n])), old(resp.rest)).value
    {
      hide IntBytes, UintBytes, SizeBytes, SizesBytes, GetInt;
      ghost var w, rows, cols := req.written, xs[..n], ys[..n];
      Start(4);
      var _ := MyWrite(req, UintBytes(id));
      var _ := MyWrite(req, SizeBytes(n));
      var _ := MyWrite(req, SizesBytes(xs[..n]));
      var _ := MyWrite(req, SizesBytes(ys[..n]));
      Chain(w + ([4] + IntBytes(session)) + UintBytes(id), SizeBytes(n), SizesBytes(rows), SizesBytes(cols));
      Associate(w + ([4] + IntBytes(session)), UintBytes(id), SizeBytes(n) + (SizesBytes(rows) + SizesBytes(cols)));
      assert Rows(Pairs(rows, cols)) == rows && Cols(Pairs(rows, cols)) == cols;
      Framed(w, 4, session, RequestBody(Reserve(id, Pairs(rows, cols))));
      result := ReadInt(resp);
    }

    method EmsShow(out: Sink<char>, id: uint) returns (result: int)
      requires DecodeReply(Show(id), resp.rest).Some?
      modifies req, resp, out
      ensures req.written == old(req.written) + EncodeRequest(session, Show(id))
      ensures var answer := DecodeReply(Show(id), old(resp.rest)).value;
              && resp.rest == answer.rest && (result == 1 <==> answer.reply.Code?)
              && result == GetInt(old(resp.rest)).value.value
              && out.written == old(out.written) + Render(Show(id), answer.reply)
    {
      hide IntBytes, UintBytes, GetInt, GetSize, GetUints, RowsText, Pending;
      ghost var w := req.written;
      Start(5);
      var _ := MyWrite(req, UintBytes(id));
      Framed(w, 5, session, UintBytes(id));
      result := ReadInt(resp);
      if result == 1 {
        return 1;
      }
      var rows := ReadSize(resp);
      var cols := ReadSize(resp);
      ghost var seats := (rows as int) * (cols as int);
      ghost var cells := GetUints(resp.rest, seats).value;
      UintsPending(resp.rest, seats);
      PrintRows(resp, out, rows, cols, cells.value, cells.rest);
    }

    method EmsListEvents(out: Sink<char>) returns (result: int)
      requires DecodeReply(ListEvents, resp.rest).Some?
      modifies req, resp, out
      ensures req.written == old(req.written) + EncodeRequest(session, ListEvents)
      ensures var answer := DecodeReply(ListEvents, old(resp.rest)).value;
              && resp.rest == answer.rest && (result == 1 <==> answer.reply.Code?)
              && (var code := GetInt(old(resp.rest)).value.value; result == if code == 2 then 1 else code)
              && out.written == old(out.written) + Render(ListEvents, answer.reply)
    {
      hide IntBytes, UintBytes, GetInt, GetSize, GetUints, IdsText, Pending;
      ghost var w := req.written;
      Start(6);
      Framed(w, 6, session, []);
      result := ReadInt(resp);
      if result == 1 {
        return 1;
      }
      if result == 2 {
        var _ := MyWrite(out, "No events\n");
        return 1;
      }
      var n := ReadSize(resp);
      ghost var ids := GetUints(resp.rest, n).value;
      UintsPending(resp.rest, n);
      PrintIds(resp, out, n, ids.value, ids.rest);
    }
  }

  lemma Framed(w: seq<byte>, code: byte, session: int32, body: seq<byte>)
    ensures w + ([code] + IntBytes(session)) + body == w + ([code] + (IntBytes(session) + body))
  {
  }
}
