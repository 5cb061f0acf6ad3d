/**
 * The request and response formats. Encoders follow what each side writes and decoders what the other
 * side reads; the round-trip lemmas say the hand-written pairs agree.
 */
module Wire {
  import opened Common
  import opened Bytes
  import opened Seats
  import opened Ems

  // ---- Arrays of integers ------------------------------------------------------------------------

  function SizesBytes(xs: seq<size>): (b: seq<byte>)
    ensures |b| == 8 * |xs|
  {
    if xs == [] then [] else SizeBytes(xs[0]) + SizesBytes(xs[1..])
  }

  function SizesFrom(b: seq<byte>, n: nat): (xs: seq<size>)
    requires |b| == 8 * n
    ensures |xs| == n
  {
    if n == 0 then [] else [SizeFrom(b[..8])] + SizesFrom(b[8..], n - 1)
  }

  lemma {:induction false} SizesRoundTrip(xs: seq<size>)
    ensures SizesFrom(SizesBytes(xs), |xs|) == xs
  {
    if xs != [] {
      SizeRoundTrip(xs[0]);
      assert SizesBytes(xs)[..8] == SizeBytes(xs[0]);
      assert SizesBytes(xs)[8..] == SizesBytes(xs[1..]);
      SizesRoundTrip(xs[1..]);
    }
  }

  function UintsBytes(xs: seq<uint>): (b: seq<byte>)
    ensures |b| == 4 * |xs|
  {
    if xs == [] then [] else UintBytes(xs[0]) + UintsBytes(xs[1..])
  }

  function UintsFrom(b: seq<byte>, n: nat): (xs: seq<uint>)
    requires |b| == 4 * n
    ensures |xs| == n
  {
    if n == 0 then [] else [UintFrom(b[..4])] + UintsFrom(b[4..], n - 1)
  }

  lemma {:induction false} UintsRoundTrip(xs: seq<uint>)
    ensures UintsFrom(UintsBytes(xs), |xs|) == xs
  {
    if xs != [] {
      UintRoundTrip(xs[0]);
      assert UintsBytes(xs)[..4] == UintBytes(xs[0]);
      assert UintsBytes(xs)[4..] == UintsBytes(xs[1..]);
      UintsRoundTrip(xs[1..]);
    }
  }

  /** Sending one more word. */
  lemma {:induction false} UintsBytesSnoc(xs: seq<uint>, x: uint)
    ensures UintsBytes(xs + [x]) == UintsBytes(xs) + UintBytes(x)
  {
    if xs == [] {
      assert [x][1..] == [];
    } else {
      UintsBytesSnoc(xs[1..], x);
      assert (xs + [x])[1..] == xs[1..] + [x];
    }
  }

  // ---- Reading one field --------------------------------------------------------------------------

  datatype Got<+T> = Got(value: T, rest: seq<byte>)

  function GetInt(b: seq<byte>): (r: Option<Got<int32>>)
    ensures r.Some? ==> |r.value.rest| < |b|
  {
    if |b| < 4 then None else Some(Got(IntFrom(b[..4]), b[4..]))
  }

  function GetUint(b: seq<byte>): (r: Option<Got<uint>>)
    ensures r.Some? ==> |r.value.rest| < |b|
  {
    if |b| < 4 then None else Some(Got(UintFrom(b[..4]), b[4..]))
  }

  function GetSize(b: seq<byte>): (r: Option<Got<size>>)
    ensures r.Some? ==> |r.value.rest| < |b|
  {
    if |b| < 8 then None else Some(Got(SizeFrom(b[..8]), b[8..]))
  }

  function GetSizes(b: seq<byte>, n: nat): (r: Option<Got<seq<size>>>)
    ensures r.Some? ==> |r.value.rest| <= |b| && |r.value.value| == n
  {
    if |b| < 8 * n then None else Some(Got(SizesFrom(b[..8 * n], n), b[8 * n..]))
  }

  function GetUints(b: seq<byte>, n: nat): (r: Option<Got<seq<uint>>>)
    ensures r.Some? ==> |r.value.rest| <= |b| && |r.value.value| == n
  {
    if |b| < 4 * n then None else Some(Got(UintsFrom(b[..4 * n], n), b[4 * n..]))
  }

  lemma Split<T>(a: seq<T>, b: seq<T>)
    ensures (a + b)[..|a|] == a && (a + b)[|a|..] == b
  {
  }

  lemma Associate<T>(a: seq<T>, b: seq<T>, c: seq<T>)
    ensures (a + b) + c == a + (b + c)
  {
  }

  lemma GetIntBytes(v: int32, rest: seq<byte>)
    ensures GetInt(IntBytes(v) + rest) == Some(Got(v, rest))
  {
    IntRoundTrip(v);
    Split(IntBytes(v), rest);
  }

  lemma GetUintBytes(v: uint, rest: seq<byte>)
    ensures GetUint(UintBytes(v) + rest) == Some(Got(v, rest))
  {
    UintRoundTrip(v);
    Split(UintBytes(v), rest);
  }

  lemma GetSizeBytes(v: size, rest: seq<byte>)
    ensures GetSize(SizeBytes(v) + rest) == Some(Got(v, rest))
  {
    SizeRoundTrip(v);
    Split(SizeBytes(v), rest);
  }

  lemma GetSizesBytes(xs: seq<size>, rest: seq<byte>)
    ensures GetSizes(SizesBytes(xs) + rest, |xs|) == Some(Got(xs, rest))
  {
    SizesRoundTrip(xs);
    Split(SizesBytes(xs), rest);
  }

  lemma GetUintsBytes(xs: seq<uint>, rest: seq<byte>)
    ensures GetUints(UintsBytes(xs) + rest, |xs|) == Some(Got(xs, rest))
  {
    UintsRoundTrip(xs);
    Split(UintsBytes(xs), rest);
  }

  // ---- Requests ------------------------------------------------------------------------------------

  function Rows(req: seq<Seat>): seq<size> {
    seq(|req|, i requires 0 <= i < |req| => req[i].row)
  }

  function Cols(req: seq<Seat>): seq<size> {
    seq(|req|, i requires 0 <= i < |req| => req[i].col)
  }

  function Pairs(xs: seq<size>, ys: seq<size>): (req: seq<Seat>)
    requires |xs| == |ys|
    ensures |req| == |xs|
  {
    seq(|xs|, i requires 0 <= i < |xs| => Seat(xs[i], ys[i]))
  }

  predicate Sendable(op: Op) {
    ValidOp(op) && (op.Reserve? ==> |op.req| <= MAX_RESERVATION_SIZE)
  }

  function OpCode(op: Op): byte {
    match op
    case Create(_, _, _) => 3
    case Reserve(_, _) => 4
    case Show(_) => 5
    case ListEvents => 6
  }

  function RequestBody(op: Op): seq<byte>
    requires Sendable(op)
  {
    match op
    case Create(id, rows, cols) => UintBytes(id) + (SizeBytes(rows) + SizeBytes(cols))
    case Reserve(id, req) => UintBytes(id) + (SizeBytes(|req|) + (SizesBytes(Rows(req)) + SizesBytes(Cols(req))))
    case Show(id) => UintBytes(id)
    case ListEvents => []
  }

  /** What the client writes for one operation of a session. */
  function EncodeRequest(session: int32, op: Op): seq<byte>
    requires Sendable(op)
  {
    [OpCode(op)] + (IntBytes(session) + RequestBody(op))
  }

  function EncodeQuit(session: int32): seq<byte> {
    [2] + IntBytes(session)
  }

  function EncodeRequests(session: int32, ops: seq<Op>): seq<byte>
    requires forall i :: 0 <= i < |ops| ==> Sendable(ops[i])
  {
    if ops == [] then [] else EncodeRequest(session, ops[0]) + EncodeRequests(session, ops[1..])
  }

  /**
   * What the server reads after an op code and the session id, field by field; none if the input is
   * cut off, a grid is too large for a `size_t`, or there are more seats than the server's arrays hold.
   */
  function DecodeBody(code: byte, b: seq<byte>): (r: Option<Got<Op>>)
    ensures r.Some? ==> |r.value.rest| <= |b| && Sendable(r.value.value)
  {
    if code == 3 then DecodeCreate(b)
    else if code == 4 then DecodeReserve(b)
    else if code == 5 then
      match GetUint(b)
      case None => None
      case Some(id) => Some(Got(Show(id.value), id.rest))
    else if code == 6 then Some(Got(Op.ListEvents, b))
    else None
  }

  function DecodeCreate(b: seq<byte>): (r: Option<Got<Op>>)
    ensures r.Some? ==> r.value.value.Create? && |r.value.rest| <= |b| && Sendable(r.value.value)
  {
    match GetUint(b)
    case None => None
    case Some(id) =>
      match GetSize(id.rest)
      case None => None
      case Some(rows) =>
        match GetSize(rows.rest)
        case None => None
        case Some(cols) =>
          var op := Create(id.value, rows.value, cols.value);
          if ValidOp(op) then Some(Got(op, cols.rest)) else None
  }

  function DecodeReserve(b: seq<byte>): (r: Option<Got<Op>>)
    ensures r.Some? ==> r.value.value.Reserve? && |r.value.rest| <= |b| && Sendable(r.value.value)
  {
    match GetUint(b)
    case None => None
    case Some(id) =>
      match GetSize(id.rest)
      case None => None
      case Some(n) =>
        if n.value > MAX_RESERVATION_SIZE then None
        else
          match GetSizes(n.rest, n.value)
          case None => None
          case Some(xs) =>
            match GetSizes(xs.rest, n.value)
            case None => None
            case Some(ys) => Some(Got(Reserve(id.value, Pairs(xs.value, ys.value)), ys.rest))
  }

  /** The operations the server loop serves from its input, and the bytes it leaves unread. */
  datatype Session = Session(ops: seq<Op>, rest: seq<byte>)

  /**
   * The whole server loop on its input: it stops at op code 2 or at end of input and skips a byte that
   * is no op code. `None` when a request is cut off or does not fit the server's arrays.
   */
  function DecodeSession(b: seq<byte>): (r: Option<Session>)
    ensures r.Some? ==> forall i :: 0 <= i < |r.value.ops| ==> Sendable(r.value.ops[i])
    decreases |b|
  {
    if b == [] then Some(Session([], []))
    else if b[0] == 2 then Some(Session([], b[1..]))
    else if b[0] < 3 || b[0] > 6 then DecodeSession(b[1..])
    else
      match GetInt(b[1..])
      case None => None
      case Some(session) =>
        match DecodeBody(b[0], session.rest)
        case None => None
        case Some(op) =>
          match DecodeSession(op.rest)
          case None => None
          case Some(later) => Some(Session([op.value] + later.ops, later.rest))
  }

  lemma CreateRoundTrip(id: uint, rows: size, cols: size, rest: seq<byte>)
    requires rows * cols <= SIZE_MAX
    ensures DecodeCreate(RequestBody(Create(id, rows, cols)) + rest) == Some(Got(Create(id, rows, cols), rest))
  {
    Associate(UintBytes(id), SizeBytes(rows) + SizeBytes(cols), rest);
    Associate(SizeBytes(rows), SizeBytes(cols), rest);
    GetUintBytes(id, SizeBytes(rows) + (SizeBytes(cols) + rest));
    GetSizeBytes(rows, SizeBytes(cols) + rest);
    GetSizeBytes(cols, rest);
    hide UintBytes, SizeBytes, GetUint, GetSize;
  }

  lemma ReserveRoundTrip(id: uint, req: seq<Seat>, rest: seq<byte>)
    requires |req| <= MAX_RESERVATION_SIZE
    ensures DecodeReserve(RequestBody(Reserve(id, req)) + rest) == Some(Got(Reserve(id, req), rest))
  {
    var n, xs, ys := |req|, Rows(req), Cols(req);
    assert Pairs(xs, ys) == req;
    Associate(UintBytes(id), SizeBytes(n) + (SizesBytes(xs) + SizesBytes(ys)), rest);
    Associate(SizeBytes(n), SizesBytes(xs) + SizesBytes(ys), rest);
    Associate(SizesBytes(xs), SizesBytes(ys), rest);
    GetUintBytes(id, SizeBytes(n) + (SizesBytes(xs) + (SizesBytes(ys) + rest)));
    GetSizeBytes(n, SizesBytes(xs) + (SizesBytes(ys) + rest));
    GetSizesBytes(xs, SizesBytes(ys) + rest);
    GetSizesBytes(ys, rest);
    hide UintBytes, SizeBytes, SizesBytes, GetUint, GetSize, GetSizes, Pairs;
  }

  /** Field for field, the server reads back what the client wrote. */
  lemma BodyRoundTrip(op: Op, rest: seq<byte>)
    requires Sendable(op)
    ensures DecodeBody(OpCode(op), RequestBody(op) + rest) == Some(Got(op, rest))
  {
    hide DecodeCreate, DecodeReserve, UintBytes, GetUint;
    match op
    case Create(id, rows, cols) => CreateRoundTrip(id, rows, cols, rest);
    case Reserve(id, req) => ReserveRoundTrip(id, req, rest);
    case Show(id) => GetUintBytes(id, rest);
    case ListEvents => assert RequestBody(op) + rest == rest;
  }

  lemma DecodeFirst(session: int32, op: Op, more: seq<byte>)
    requires Sendable(op) && DecodeSession(more).Some?
    ensures var later := DecodeSession(more).value;
            DecodeSession(EncodeRequest(session, op) + more) == Some(Session([op] + later.ops, later.rest))
  {
    BodyRoundTrip(op, more);
    GetIntBytes(session, RequestBody(op) + more);
    Associate([OpCode(op)], IntBytes(session) + RequestBody(op), more);
    Associate(IntBytes(session), RequestBody(op), more);
    hide DecodeBody, RequestBody, IntBytes, GetInt, Sendable;
    var tail := IntBytes(session) + (RequestBody(op) + more);
    assert EncodeRequest(session, op) + more == [OpCode(op)] + tail;
    Split([OpCode(op)], tail);
  }

  /**
   * The framing theorem: whatever list of operations a client sends before its quit, the server loop
   * decodes exactly that list and stops at the quit, whatever bytes follow.
   */
  lemma {:induction false} SessionRoundTrip(session: int32, ops: seq<Op>, after: seq<byte>)
    requires forall i :: 0 <= i < |ops| ==> Sendable(ops[i])
    ensures DecodeSession(EncodeRequests(session, ops) + EncodeQuit(session) + after)
         == Some(Session(ops, IntBytes(session) + after))
  {
    hide EncodeRequest, IntBytes, Sendable, DecodeBody;
    if ops == [] {
      var b := EncodeQuit(session) + after;
      assert EncodeRequests(session, ops) + EncodeQuit(session) + after == b;
      assert b[0] == 2 && b[1..] == IntBytes(session) + after;
    } else {
      var more := EncodeRequests(session, ops[1..]) + EncodeQuit(session) + after;
      SessionRoundTrip(session, ops[1..], after);
      DecodeFirst(session, ops[0], more);
      hide DecodeSession, EncodeQuit;
      var first, later := EncodeRequest(session, ops[0]), EncodeRequests(session, ops[1..]);
      Associate(first, later, EncodeQuit(session));
      Associate(first, later + EncodeQuit(session), after);
      assert [ops[0]] + ops[1..] == ops;
    }
  }

  // ---- Replies ---------------------------------------------------------------------------------------

  /** Replies the server gives to an operation: the codes, or data with code 0. */
  predicate ReplyFits(op: Op, reply: Reply) {
    match reply
    case Code(code) =>
      if op.Show? then code == 1 else if op.ListEvents? then code == 1 || code == 2 else code == 0 || code == 1
    case Matrix(rows, cols, cells) => op.Show? && |cells| == rows * cols
    case Ids(count, ids) => op.ListEvents? && count == |ids| <= SIZE_MAX
  }

  function EncodeReply(reply: Reply): seq<byte>
    requires reply.Code? ==> 0 <= reply.code <= 2
    requires reply.Ids? ==> reply.count <= SIZE_MAX
  {
    match reply
    case Code(code) => IntBytes(code)
    case Matrix(rows, cols, cells) => IntBytes(0) + (SizeBytes(rows) + (SizeBytes(cols) + UintsBytes(cells)))
    case Ids(count, ids) => IntBytes(0) + (SizeBytes(count) + UintsBytes(ids))
  }

  datatype Answer = Answer(reply: Reply, rest: seq<byte>)

  /** What the client reads after sending an operation; none if the input is cut off. */
  function DecodeReply(op: Op, b: seq<byte>): (r: Option<Answer>)
    ensures r.Some? && r.value.reply.Matrix? ==> |r.value.reply.cells| == r.value.reply.rows * r.value.reply.cols
    ensures r.Some? && r.value.reply.Ids? ==> |r.value.reply.ids| == r.value.reply.count
  {
    match GetInt(b)
    case None => None
    case Some(result) =>
      if !op.Show? && !op.ListEvents? then Some(Answer(Code(result.value), result.rest))
      else if result.value == 1 then Some(Answer(Code(1), result.rest))
      else if op.Show? then DecodeMatrix(result.rest)
      else if result.value == 2 then Some(Answer(Code(2), result.rest))
      else DecodeIds(result.rest)
  }

  function DecodeMatrix(b: seq<byte>): (r: Option<Answer>)
    ensures r.Some? ==> r.value.reply.Matrix? && |r.value.reply.cells| == r.value.reply.rows * r.value.reply.cols
  {
    match GetSize(b)
    case None => None
    case Some(rows) =>
      match GetSize(rows.rest)
      case None => None
      case Some(cols) =>
        match GetUints(cols.rest, rows.value * cols.value)
        case None => None
        case Some(cells) => Some(Answer(Matrix(rows.value, cols.value, cells.value), cells.rest))
  }

  function DecodeIds(b: seq<byte>): (r: Option<Answer>)
    ensures r.Some? ==> r.value.reply.Ids? && |r.value.reply.ids| == r.value.reply.count
  {
    match GetSize(b)
    case None => None
    case Some(n) =>
      match GetUints(n.rest, n.value)
      case None => None
      case Some(ids) => Some(Answer(Ids(n.value, ids.value), ids.rest))
  }

  lemma MatrixRoundTrip(rows: size, cols: size, cells: seq<uint>, rest: seq<byte>)
    requires |cells| == rows * cols
    ensures DecodeMatrix(SizeBytes(rows) + (SizeBytes(cols) + UintsBytes(cells)) + rest)
         == Some(Answer(Matrix(rows, cols, cells), rest))
  {
    Associate(SizeBytes(rows), SizeBytes(cols) + UintsBytes(cells), rest);
    Associate(SizeBytes(cols), UintsBytes(cells), rest);
    GetSizeBytes(rows, SizeBytes(cols) + (UintsBytes(cells) + rest));
    GetSizeBytes(cols, UintsBytes(cells) + rest);
    GetUintsBytes(cells, rest);
    hide SizeBytes, UintsBytes, GetSize, GetUints;
  }

  lemma IdsRoundTrip(count: size, ids: seq<uint>, rest: seq<byte>)
    requires |ids| == count
    ensures DecodeIds(SizeBytes(count) + UintsBytes(ids) + rest) == Some(Answer(Ids(count, ids), rest))
  {
    Associate(SizeBytes(count), UintsBytes(ids), rest);
    GetSizeBytes(count, UintsBytes(ids) + rest);
    GetUintsBytes(ids, rest);
    hide SizeBytes, UintsBytes, GetSize, GetUints;
  }

  /** The client consumes exactly the bytes of one reply and gets its fields back. */
  lemma ReplyRoundTrip(op: Op, reply: Reply, rest: seq<byte>)
    requires ReplyFits(op, reply)
    ensures DecodeReply(op, EncodeReply(reply) + rest) == Some(Answer(reply, rest))
  {
    hide IntBytes, SizeBytes, UintsBytes, GetInt, DecodeMatrix, DecodeIds;
    match reply
    case Code(code) =>
      GetIntBytes(code, rest);
    case Matrix(rows, cols, cells) =>
      var body := SizeBytes(rows) + (SizeBytes(cols) + UintsBytes(cells));
      Associate(IntBytes(0), body, rest);
      GetIntBytes(0, body + rest);
      MatrixRoundTrip(rows, cols, cells, rest);
    case Ids(count, ids) =>
      var body := SizeBytes(count) + UintsBytes(ids);
      Associate(IntBytes(0), body, rest);
      GetIntBytes(0, body + rest);
      IdsRoundTrip(count, ids, rest);
  }

  /** Any code but 1 is followed by data in a reply to a show; a list reply has none after 2 either. */
  lemma OtherCodesCarryData(id: uint, code: int32, body: seq<byte>)
    ensures code != 1 ==> DecodeReply(Show(id), IntBytes(code) + body) == DecodeMatrix(body)
    ensures code != 1 && code != 2 ==> DecodeReply(ListEvents, IntBytes(code) + body) == DecodeIds(body)
    ensures DecodeReply(Show(id), IntBytes(1) + body) == Some(Answer(Code(1), body))
    ensures DecodeReply(ListEvents, IntBytes(1) + body) == Some(Answer(Code(1), body))
    ensures DecodeReply(ListEvents, IntBytes(2) + body) == Some(Answer(Code(2), body))
  {
    hide IntBytes, GetInt, DecodeMatrix, DecodeIds;
    GetIntBytes(code, body);
    GetIntBytes(1, body);
    GetIntBytes(2, body);
  }

  /** Create and reserve replies are a bare code. */
  lemma BareCodes(op: Op, code: int32, rest: seq<byte>)
    requires op.Create? || op.Reserve?
    ensures DecodeReply(op, IntBytes(code) + rest) == Some(Answer(Code(code), rest))
  {
    hide IntBytes, GetInt;
    GetIntBytes(code, rest);
  }

  /** A byte that is no op code is skipped alone. */
  lemma UnknownCodeSkipped(code: byte, more: seq<byte>)
    requires code < 2 || code > 6
    ensures DecodeSession([code] + more) == DecodeSession(more)
  {
    Split([code], more);
  }

  /** Every reply of the serial engine is one the formats can carry. */
  lemma RepliesFit(s: State, op: Op, fails: bool)
    requires Ems.Valid(s) && ValidOp(op)
    ensures ReplyFits(op, Apply(s, op, fails).1)
  {
    EventCountFits(s);
  }

  /** The bytes the server answers an operation with. */
  ghost function ReplyBytes(s: State, op: Op, fails: bool): seq<byte>
    requires Ems.Valid(s) && ValidOp(op)
  {
    RepliesFit(s, op, fails);
    EncodeReply(Apply(s, op, fails).1)
  }

  /**
   * Serving a list of operations one after the other: the final state and all reply bytes. `fails(k)` is
   * the outcome of the allocations for the `k`-th operation of the session.
   */
  ghost function Serve(s: State, ops: seq<Op>, fails: nat -> bool, k: nat): (State, seq<byte>)
    requires Ems.Valid(s) && forall i :: 0 <= i < |ops| ==> Sendable(ops[i])
    decreases |ops|
  {
    if ops == [] then (s, [])
    else
      var op := ops[0];
      assert Sendable(ops[0]);
      var after := Apply(s, op, fails(k));
      ApplyValid(s, op, fails(k));
      var later := Serve(after.0, ops[1..], fails, k + 1);
      (later.0, ReplyBytes(s, op, fails(k)) + later.1)
  }
}
