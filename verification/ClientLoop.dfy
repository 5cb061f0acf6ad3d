/** The command loop of the client's main.c: parse a command, send it, print its reply, until the file ends. */
module ClientLoop {
  import opened Common
  import opened Bytes
  import opened Seats
  import opened Ems
  import opened Numbers
  import opened Parser
  import opened Pipes
  import opened Wire
  import opened Output
  import opened Reader
  import opened Api

  // ---- What a whole command file sends and prints --------------------------------------------------------

  /** The operations among the items of a file. */
  function Ops(items: seq<Item>): (ops: seq<Op>)
    requires forall i :: 0 <= i < |items| && items[i].Do? ==> ByClient(items[i].op)
    ensures forall i :: 0 <= i < |ops| ==> ByClient(ops[i]) && Sendable(ops[i]) && ValidOp(ops[i])
  {
    if items == [] then []
    else
      var later := Ops(items[1..]);
      if items[0].Do? then
        ClientSendable(items[0].op);
        [items[0].op] + later
      else later
  }

  lemma ClientSendable(op: Op)
    requires ByClient(op)
    ensures Sendable(op)
  {
    if op.Create? { ParsedDimensionsFit(op.rows, op.cols); }
  }

  ghost predicate Defined(items: seq<Item>) {
    forall i :: 0 <= i < |items| ==> !items[i].Undefined?
  }

  /** The replies read for a list of operations, the text printed for them, and the input left unread. */
  datatype Transcript = Transcript(replies: seq<Reply>, text: seq<char>, rest: seq<byte>)

  /** `None` when the input is cut off. */
  function Replies(ops: seq<Op>, input: seq<byte>): (r: Option<Transcript>)
    ensures r.Some? ==> |r.value.replies| == |ops|
  {
    if ops == [] then Some(Transcript([], "", input))
    else
      match DecodeReply(ops[0], input)
      case None => None
      case Some(answer) =>
        match Replies(ops[1..], answer.rest)
        case None => None
        case Some(later) =>
          Some(Transcript([answer.reply] + later.replies, Render(ops[0], answer.reply) + later.text, later.rest))
  }

  // ---- One turn --------------------------------------------------------------------------------------------

  /** What one turn does to the request pipe, the response pipe and the output file. */
  ghost predicate TurnEffect(item: Item, session: int32, sent: seq<byte>, input: seq<byte>, text: seq<char>,
                         sent': seq<byte>, input': seq<byte>, text': seq<char>)
    requires item.Do? ==> Sendable(item.op) && DecodeReply(item.op, input).Some?
  {
    if item.Do? then
      var answer := DecodeReply(item.op, input).value;
      && sent' == sent + EncodeRequest(session, item.op)
      && input' == answer.rest
      && text' == text + Render(item.op, answer.reply)
    else sent' == sent && input' == input && text' == text
  }

  /** The reserve case of the loop. */
  method TurnReserve(fd: TextFile, client: Client, out: Sink<char>, xs: array<size>, ys: array<size>, eof: Option<uint>)
    requires xs.Length == MAX_RESERVATION_SIZE && ys.Length == MAX_RESERVATION_SIZE && xs != ys
    requires var item := ParseReserve(fd.rest, eof).0;
             !item.Undefined? && (item.Do? ==> Sendable(item.op) && DecodeReply(item.op, client.resp.rest).Some?)
    modifies fd, client.req, client.resp, xs, ys
    ensures fd.rest == ParseReserve(old(fd.rest), eof).1
    ensures TurnEffect(ParseReserve(old(fd.rest), eof).0, client.session,
                       old(client.req.written), old(client.resp.rest), out.written,
                       client.req.written, client.resp.rest, out.written)
  {
    hide ParseReserve, Pairs, EncodeRequest;
    ghost var input := client.resp.rest;
    var n, id, overrun := ParseReserveFrom(fd, eof, xs, ys);
    assert client.resp.rest == input;
    if n == 0 {
      return;
    }
    ghost var op := Reserve(id, Pairs(xs[..n], ys[..n]));
    var result := client.EmsReserve(id, n, xs, ys);
    CodesPrintNothing(op, input);
  }

  lemma CodesPrintNothing(op: Op, input: seq<byte>)
    requires !op.Show? && !op.ListEvents? && DecodeReply(op, input).Some?
    ensures forall text: seq<char> :: text + Render(op, DecodeReply(op, input).value.reply) == text
  {
  }

  /** The other cases that parse arguments. */
  method TurnArguments(command: Command, fd: TextFile, client: Client, out: Sink<char>, eof: Option<uint>)
    requires command.CREATE? || command.SHOW? || command.WAIT?
    requires var item := ParseArguments(command, fd.rest, eof).0;
             !item.Undefined? && (item.Do? ==> Sendable(item.op) && DecodeReply(item.op, client.resp.rest).Some?)
    modifies fd, client.req, client.resp, out
    ensures fd.rest == ParseArguments(command, old(fd.rest), eof).1
    ensures TurnEffect(ParseArguments(command, old(fd.rest), eof).0, client.session,
                   old(client.req.written), old(client.resp.rest), old(out.written),
                   client.req.written, client.resp.rest, out.written)
  {
    hide ParseCreate, ParseShow, ParseWait, EncodeRequest, DecodeReply, Render, Sendable;
    ghost var input := client.resp.rest;
    if command.CREATE? {
      var item := ParseCreateFrom(fd, eof);
      CreateParsed(old(fd.rest), eof);
      if item.Do? {
        var result := client.EmsCreate(item.op.id, item.op.rows, item.op.cols);
        CodesPrintNothing(item.op, input);
      }
    } else if command.SHOW? {
      var item := ParseShowFrom(fd, eof);
      ShowParsed(old(fd.rest), eof);
      if item.Do? {
        var result := client.EmsShow(out, item.op.id);
      }
    } else {
      var item := ParseWaitFrom(fd, eof);
      ShowParsed(old(fd.rest), eof);
    }
  }

  lemma CreateParsed(s: seq<char>, eof: Option<uint>)
    ensures ParseCreate(s, eof).0.Do? ==> ParseCreate(s, eof).0.op.Create?
  {
    hide ParseUint, AfterLine;
  }

  lemma ShowParsed(s: seq<char>, eof: Option<uint>)
    ensures ParseShow(s, eof).0.Do? ==> ParseShow(s, eof).0.op.Show?
    ensures !ParseWait(s, eof).0.Do?
  {
    hide ParseUint, AfterLine;
  }

  /** One turn of the loop; `more` is false at EOC. */
  method Turn(fd: TextFile, client: Client, out: Sink<char>, xs: array<size>, ys: array<size>, eof: Option<uint>)
    returns (more: bool)
    requires xs.Length == MAX_RESERVATION_SIZE && ys.Length == MAX_RESERVATION_SIZE && xs != ys
    requires fd.rest != [] ==>
               var item := NextItem(fd.rest, eof).0;
               !item.Undefined? && (item.Do? ==> Sendable(item.op) && DecodeReply(item.op, client.resp.rest).Some?)
    modifies fd, client.req, client.resp, out, xs, ys
    ensures more <==> old(fd.rest) != []
    ensures more ==>
              && fd.rest == NextItem(old(fd.rest), eof).1
              && TurnEffect(NextItem(old(fd.rest), eof).0, client.session,
                        old(client.req.written), old(client.resp.rest), old(out.written),
                        client.req.written, client.resp.rest, out.written)
    ensures !more ==> fd.rest == [] && client.req.written == old(client.req.written)
                      && client.resp.rest == old(client.resp.rest) && out.written == old(out.written)
  {
    hide GetNext, ParseCreate, ParseReserve, ParseShow, ParseWait, EncodeRequest, DecodeReply, Render, Sendable;
    ghost var s, input := fd.rest, client.resp.rest;
    var command := GetNextFrom(fd);
    assert client.resp.rest == input;
    if command.None? {
      return false;
    }
    match command.value {
      case RESERVE =>
        TurnReserve(fd, client, out, xs, ys, eof);
      case LIST =>
        assert NextItem(s, eof).0 == Do(Op.ListEvents);
        var result := client.EmsListEvents(out);
      case HELP | EMPTY | INVALID =>
      case _ =>
        TurnArguments(command.value, fd, client, out, eof);
    }
    return true;
  }

  // ---- The whole loop ----------------------------------------------------------------------------------------

  /** What is left of a session comes to the given totals. */
  ghost predicate Remaining(s: seq<char>, eof: Option<uint>, session: int32, sent: seq<byte>, input: seq<byte>,
                            text: seq<char>, requests: seq<byte>, rest: seq<byte>, total: seq<char>)
  {
    && Defined(Items(s, eof))
    && var ops := Ops(Items(s, eof));
    && Replies(ops, input).Some?
    && sent + EncodeRequests(session, ops) == requests
    && Replies(ops, input).value.rest == rest
    && text + Replies(ops, input).value.text == total
  }

  lemma FirstItem(s: seq<char>, eof: Option<uint>)
    requires s != [] && Defined(Items(s, eof))
    ensures var (item, r) := NextItem(s, eof);
            && !item.Undefined? && Defined(Items(r, eof))
            && (item.Do? ==> Sendable(item.op))
            && Ops(Items(s, eof)) == (if item.Do? then [item.op] else []) + Ops(Items(r, eof))
  {
    hide NextItem, Sendable, ByClient;
    var items := Items(s, eof);
    var (item, r) := NextItem(s, eof);
    assert items[0] == item;
    assert items[1..] == Items(r, eof);
    assert forall i :: 0 <= i < |items[1..]| ==> items[1..][i] == items[i + 1];
    assert item.Do? ==> Ops(items)[0] == item.op;
  }

  lemma FirstReply(op: Op, ops: seq<Op>, input: seq<byte>)
    requires Replies([op] + ops, input).Some?
    ensures DecodeReply(op, input).Some?
    ensures var answer := DecodeReply(op, input).value;
            && Replies(ops, answer.rest).Some?
            && var all, later := Replies([op] + ops, input).value, Replies(ops, answer.rest).value;
            && all.replies == [answer.reply] + later.replies
            && all.text == Render(op, answer.reply) + later.text
            && all.rest == later.rest
  {
    hide DecodeReply, Render;
    assert ([op] + ops)[0] == op && ([op] + ops)[1..] == ops;
  }

  lemma FirstRequest(session: int32, op: Op, ops: seq<Op>)
    requires Sendable(op) && forall i :: 0 <= i < |ops| ==> Sendable(ops[i])
    ensures EncodeRequests(session, [op] + ops) == EncodeRequest(session, op) + EncodeRequests(session, ops)
  {
    hide EncodeRequest, Sendable;
    assert ([op] + ops)[0] == op && ([op] + ops)[1..] == ops;
  }

  /** The first turn finds a defined item and, for an operation, a whole reply. */
  lemma RemainingReady(s: seq<char>, eof: Option<uint>, session: int32, sent: seq<byte>, input: seq<byte>,
                       text: seq<char>, requests: seq<byte>, rest: seq<byte>, total: seq<char>)
    requires s != [] && Remaining(s, eof, session, sent, input, text, requests, rest, total)
    ensures var item := NextItem(s, eof).0;
            !item.Undefined? && (item.Do? ==> Sendable(item.op) && DecodeReply(item.op, input).Some?)
  {
    hide NextItem, Items, Ops, Replies, DecodeReply, Defined, Sendable, EncodeRequests;
    FirstItem(s, eof);
    var (item, r) := NextItem(s, eof);
    if item.Do? { FirstReply(item.op, Ops(Items(r, eof)), input); }
  }

  lemma RemainingNext(s: seq<char>, eof: Option<uint>, session: int32, sent: seq<byte>, input: seq<byte>,
                      text: seq<char>, requests: seq<byte>, rest: seq<byte>, total: seq<char>,
                      sent': seq<byte>, input': seq<byte>, text': seq<char>)
    requires s != [] && Remaining(s, eof, session, sent, input, text, requests, rest, total)
    requires NextItem(s, eof).0.Do? ==>
               Sendable(NextItem(s, eof).0.op) && DecodeReply(NextItem(s, eof).0.op, input).Some?
    requires TurnEffect(NextItem(s, eof).0, session, sent, input, text, sent', input', text')
    ensures Remaining(NextItem(s, eof).1, eof, session, sent', input', text', requests, rest, total)
  {
    hide NextItem, Items, Ops, Replies, DecodeReply, Defined, Sendable, EncodeRequests, EncodeRequest, Render;
    FirstItem(s, eof);
    var (item, r) := NextItem(s, eof);
    var ops := Ops(Items(r, eof));
    if item.Do? {
      FirstReply(item.op, ops, input);
      FirstRequest(session, item.op, ops);
      Associate(sent, EncodeRequest(session, item.op), EncodeRequests(session, ops));
      var answer := DecodeReply(item.op, input).value;
      Associate(text, Render(item.op, answer.reply), Replies(ops, answer.rest).value.text);
    } else {
      assert [] + ops == ops;
    }
  }

  lemma RemainingEnd(eof: Option<uint>, session: int32, sent: seq<byte>, input: seq<byte>,
                     text: seq<char>, requests: seq<byte>, rest: seq<byte>, total: seq<char>)
    requires Remaining([], eof, session, sent, input, text, requests, rest, total)
    ensures sent == requests && input == rest && text == total
  {
    assert Ops([]) == [];
  }

  /**
   * The client's main loop on any command file whose numerals fit the parser's buffer, against any response
   * stream that is not cut off, for any chunking: it sends exactly the requests of the file's operations and
   * then quits, reads exactly one reply for each, and writes exactly what those replies render to.
   */
  method Run(fd: TextFile, client: Client, out: Sink<char>, eof: Option<uint>)
    requires Defined(Items(fd.rest, eof)) && Replies(Ops(Items(fd.rest, eof)), client.resp.rest).Some?
    modifies fd, client.req, client.resp, out
    ensures fd.rest == []
    ensures var ops := Ops(Items(old(fd.rest), eof));
            var transcript := Replies(ops, old(client.resp.rest)).value;
            && client.req.written == old(client.req.written) + EncodeRequests(client.session, ops)
                                     + EncodeQuit(client.session)
            && client.resp.rest == transcript.rest
            && out.written == old(out.written) + transcript.text
  {
    hide NextItem, Items, Ops, Replies, DecodeReply, Sendable, Defined, Remaining, TurnEffect;
    hide EncodeRequests, EncodeRequest, EncodeQuit;
    ghost var ops := Ops(Items(fd.rest, eof));
    ghost var transcript := Replies(ops, client.resp.rest).value;
    ghost var session, requests := client.session, client.req.written + EncodeRequests(client.session, ops);
    ghost var rest, total := transcript.rest, out.written + transcript.text;
    assert Remaining(fd.rest, eof, session, client.req.written, client.resp.rest, out.written,
                     requests, rest, total) by {
      RemainingStart(fd.rest, eof, session, client.req.written, client.resp.rest, out.written);
    }
    var xs := new size[MAX_RESERVATION_SIZE](i => 0);
    var ys := new size[MAX_RESERVATION_SIZE](i => 0);
    var more := true;
    while more
      invariant Remaining(fd.rest, eof, session, client.req.written, client.resp.rest, out.written,
                          requests, rest, total)
      invariant !more ==> fd.rest == []
      modifies fd, client.req, client.resp, out, xs, ys
      decreases more, |fd.rest|
    {
      ghost var s, sent, input, text := fd.rest, client.req.written, client.resp.rest, out.written;
      if s != [] { RemainingReady(s, eof, session, sent, input, text, requests, rest, total); }
      more := Turn(fd, client, out, xs, ys, eof);
      if more {
        RemainingNext(s, eof, session, sent, input, text, requests, rest, total,
                      client.req.written, client.resp.rest, out.written);
      }
    }
    RemainingEnd(eof, session, client.req.written, client.resp.rest, out.written, requests, rest, total);
    client.EmsQuit();
  }

  lemma RemainingStart(s: seq<char>, eof: Option<uint>, session: int32, sent: seq<byte>, input: seq<byte>,
                       text: seq<char>)
    requires Defined(Items(s, eof)) && Replies(Ops(Items(s, eof)), input).Some?
    ensures var ops := Ops(Items(s, eof));
            var transcript := Replies(ops, input).value;
            Remaining(s, eof, session, sent, input, text,
                      sent + EncodeRequests(session, ops), transcript.rest, text + transcript.text)
  {
  }
}
