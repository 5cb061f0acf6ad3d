/** One client against the server, from command file to output file. */
module EndToEnd {
  import opened Common
  import opened Bytes
  import opened Ems
  import opened Parser
  import opened Pipes
  import opened Wire
  import opened Output
  import opened Direct
  import opened Api
  import J = Jobs
  import L = ClientLoop
  import S = Server
  import H = Handler

  // ---- Responses stay in step ------------------------------------------------------------------------------

  /** The replies of the serial engine to a list of operations. */
  ghost function RepliesOf(s: State, ops: seq<Op>, fails: nat -> bool, k: nat): (replies: seq<Reply>)
    requires Ems.Valid(s) && forall i :: 0 <= i < |ops| ==> Sendable(ops[i])
    ensures |replies| == |ops|
    decreases |ops|
  {
    if ops == [] then []
    else
      assert Sendable(ops[0]);
      var (s', reply) := Apply(s, ops[0], fails(k));
      ApplyValid(s, ops[0], fails(k));
      [reply] + RepliesOf(s', ops[1..], fails, k + 1)
  }

  /** The first operation of a list that is served, answered and read. */
  lemma FirstInStep(s: State, ops: seq<Op>, fails: nat -> bool, k: nat, more: seq<byte>)
    requires Ems.Valid(s) && (forall i :: 0 <= i < |ops| ==> Sendable(ops[i])) && ops != []
    ensures Sendable(ops[0]) && Ems.Valid(Apply(s, ops[0], fails(k)).0)
    ensures var (s', reply) := Apply(s, ops[0], fails(k));
            && Serve(s, ops, fails, k).0 == Serve(s', ops[1..], fails, k + 1).0
            && DecodeReply(ops[0], Serve(s, ops, fails, k).1 + more)
            == Some(Answer(reply, Serve(s', ops[1..], fails, k + 1).1 + more))
  {
    hide Ems.Valid, Apply, EncodeReply, DecodeReply, ReplyFits;
    assert Sendable(ops[0]);
    ApplyValid(s, ops[0], fails(k));
    RepliesFit(s, ops[0], fails(k));
    var (s', reply) := Apply(s, ops[0], fails(k));
    var later := Serve(s', ops[1..], fails, k + 1).1;
    ReplyRoundTrip(ops[0], reply, later + more);
    Associate(EncodeReply(reply), later, more);
  }

  /**
   * Response synchronisation: over a whole session the client reads back exactly the replies the server
   * gave, each from its first byte, and leaves whatever follows.
   */
  lemma {:induction false} ResponsesInStep(s: State, ops: seq<Op>, fails: nat -> bool, k: nat, more: seq<byte>)
    requires Ems.Valid(s) && forall i :: 0 <= i < |ops| ==> Sendable(ops[i])
    ensures var t := L.Replies(ops, Serve(s, ops, fails, k).1 + more);
            t.Some? && t.value.replies == RepliesOf(s, ops, fails, k) && t.value.rest == more
    decreases |ops|
  {
    hide Ems.Valid, Apply, DecodeReply, Render, Sendable;
    if ops == [] {
      assert Serve(s, ops, fails, k).1 + more == more;
    } else {
      FirstInStep(s, ops, fails, k, more);
      hide Serve;
      ResponsesInStep(Apply(s, ops[0], fails(k)).0, ops[1..], fails, k + 1, more);
    }
  }

  /** Serving a list of operations is serving its first part and then, from where that leaves off, the rest. */
  lemma {:induction false} ServeSplits(s: State, a: seq<Op>, b: seq<Op>, fails: nat -> bool, k: nat)
    requires Ems.Valid(s)
    requires (forall i :: 0 <= i < |a| ==> Sendable(a[i])) && (forall i :: 0 <= i < |b| ==> Sendable(b[i]))
    ensures Ems.Valid(Serve(s, a, fails, k).0)
    ensures var first := Serve(s, a, fails, k);
            var second := Serve(first.0, b, fails, k + |a|);
            Serve(s, a + b, fails, k) == (second.0, first.1 + second.1)
    decreases |a|
  {
    hide Ems.Valid, Apply, ReplyBytes, Sendable;
    if a == [] {
      assert a + b == b;
      assert [] + Serve(s, b, fails, k).1 == Serve(s, b, fails, k).1;
    } else {
      assert Sendable(a[0]) && (a + b)[0] == a[0] && (a + b)[1..] == a[1..] + b;
      SendableValid(a[0]);
      ApplyValid(s, a[0], fails(k));
      var s' := Apply(s, a[0], fails(k)).0;
      ServeSplits(s', a[1..], b, fails, k + 1);
      Associate(ReplyBytes(s, a[0], fails(k)), Serve(s', a[1..], fails, k + 1).1,
                Serve(Serve(s', a[1..], fails, k + 1).0, b, fails, k + |a|).1);
    }
  }

  lemma SendableValid(op: Op)
    requires Sendable(op)
    ensures ValidOp(op)
  {
  }

  /** A session that has not quit yet is decoded as far as it goes. */
  lemma {:induction false} OpenSession(session: int32, ops: seq<Op>)
    requires forall i :: 0 <= i < |ops| ==> Sendable(ops[i])
    ensures DecodeSession(EncodeRequests(session, ops)) == Some(Session(ops, []))
  {
    hide EncodeRequest, Sendable, DecodeBody, IntBytes;
    if ops != [] {
      OpenSession(session, ops[1..]);
      DecodeFirst(session, ops[0], EncodeRequests(session, ops[1..]));
      hide DecodeSession;
      assert [ops[0]] + ops[1..] == ops;
    }
  }

  lemma {:induction false} RequestsConcat(session: int32, a: seq<Op>, b: seq<Op>)
    requires (forall i :: 0 <= i < |a| ==> Sendable(a[i])) && (forall i :: 0 <= i < |b| ==> Sendable(b[i]))
    ensures EncodeRequests(session, a + b) == EncodeRequests(session, a) + EncodeRequests(session, b)
  {
    hide EncodeRequest, Sendable;
    if a == [] {
      assert a + b == b;
    } else {
      assert (a + b)[0] == a[0] && (a + b)[1..] == a[1..] + b;
      RequestsConcat(session, a[1..], b);
    }
  }

  lemma {:induction false} RepliesConcat(s: State, a: seq<Op>, b: seq<Op>, fails: nat -> bool, k: nat)
    requires Ems.Valid(s)
    requires (forall i :: 0 <= i < |a| ==> Sendable(a[i])) && (forall i :: 0 <= i < |b| ==> Sendable(b[i]))
    ensures Ems.Valid(Serve(s, a, fails, k).0)
    ensures RepliesOf(s, a + b, fails, k)
         == RepliesOf(s, a, fails, k) + RepliesOf(Serve(s, a, fails, k).0, b, fails, k + |a|)
    decreases |a|
  {
    hide Ems.Valid, Apply, ReplyBytes, Sendable;
    if a == [] {
      assert a + b == b;
    } else {
      assert Sendable(a[0]) && (a + b)[0] == a[0] && (a + b)[1..] == a[1..] + b;
      SendableValid(a[0]);
      ApplyValid(s, a[0], fails(k));
      RepliesConcat(Apply(s, a[0], fails(k)).0, a[1..], b, fails, k + 1);
    }
  }

  /**
   * Lock step: once the client has sent its first `n` requests, which begin the whole request stream, the
   * server has decoded exactly those and written exactly their replies, which begin the whole response
   * stream; and the client's first `n` reads take exactly those bytes.
   */
  lemma LockStep(s: State, ops: seq<Op>, n: nat, session: int32, fails: nat -> bool)
    requires Ems.Valid(s) && n <= |ops| && forall i :: 0 <= i < |ops| ==> Sendable(ops[i])
    ensures EncodeRequests(session, ops[..n]) <= EncodeRequests(session, ops)
    ensures DecodeSession(EncodeRequests(session, ops[..n])) == Some(Session(ops[..n], []))
    ensures var sofar := Serve(s, ops[..n], fails, 0).1;
            && sofar <= Serve(s, ops, fails, 0).1
            && var t := L.Replies(ops[..n], sofar);
            t.Some? && t.value.rest == [] && t.value.replies == RepliesOf(s, ops, fails, 0)[..n]
  {
    hide Serve, RepliesOf, Sendable, DecodeSession, EncodeRequests, L.Replies;
    var a, b := ops[..n], ops[n..];
    assert ops == a + b;
    RequestsConcat(session, a, b);
    OpenSession(session, a);
    ServeSplits(s, a, b, fails, 0);
    RepliesConcat(s, a, b, fails, 0);
    ResponsesInStep(s, a, fails, 0, []);
    assert Serve(s, a, fails, 0).1 + [] == Serve(s, a, fails, 0).1;
  }

  // ---- The output file ---------------------------------------------------------------------------------------

  lemma {:induction false} GrantedGrows(b: Halls, ops: seq<Op>, fails: nat -> bool, k: nat)
    requires Fits(b) && forall i :: 0 <= i < |ops| ==> ValidOp(ops[i])
    ensures var c := InterpretAll(b, ops, fails, k).0;
            forall id :: id in b.of ==> id in c.of && |b.of[id].granted| <= |c.of[id].granted|
    decreases |ops|
  {
    hide Fits, Takes, GridOf, Listing;
    if ops != [] {
      GrantedGrows(Interpret(b, ops[0], fails(k)).0, ops[1..], fails, k + 1);
    }
  }

  /** What the client prints while the engine serves a list of operations is what interpreting them prints. */
  lemma {:induction false} PrintsDirectly(s: State, b: Halls, ops: seq<Op>, fails: nat -> bool, k: nat, more: seq<byte>)
    requires Matches(s, b) && (forall i :: 0 <= i < |ops| ==> Sendable(ops[i]) && ValidOp(ops[i]))
    requires Countable(InterpretAll(b, ops, fails, k).0)
    ensures var t := L.Replies(ops, Serve(s, ops, fails, k).1 + more);
            && t.Some? && t.value.text == InterpretAll(b, ops, fails, k).1 && t.value.rest == more
            && CodesOf(t.value.replies) == InterpretAll(b, ops, fails, k).2
    ensures Matches(Serve(s, ops, fails, k).0, InterpretAll(b, ops, fails, k).0)
    decreases |ops|
  {
    hide Ems.Valid, Apply, DecodeReply, Render, Sendable, Interpret, Takes, ValidOp, EventMatches, CodesOf, CodeOf;
    if ops == [] {
      assert Serve(s, ops, fails, k).1 + more == more;
    } else {
      FirstInStep(s, ops, fails, k, more);
      var c := Interpret(b, ops[0], fails(k)).0;
      GrantedGrows(c, ops[1..], fails, k + 1);
      CallMatches(s, b, ops[0], fails(k));
      var s', reply := Apply(s, ops[0], fails(k)).0, Apply(s, ops[0], fails(k)).1;
      PrintsDirectly(s', c, ops[1..], fails, k + 1, more);
      CodesCons(reply, L.Replies(ops[1..], Serve(s', ops[1..], fails, k + 1).1 + more).value.replies);
    }
  }

  /** The bytes a client sends for a whole file. */
  function Requests(session: int32, ops: seq<Op>): seq<byte>
    requires forall i :: 0 <= i < |ops| ==> Sendable(ops[i])
  {
    EncodeRequests(session, ops) + EncodeQuit(session)
  }

  /** A client and the server that start with no events, for any list of operations. */
  lemma ServedSession(ops: seq<Op>, session: int32, fails: nat -> bool)
    requires forall i :: 0 <= i < |ops| ==> Sendable(ops[i]) && ValidOp(ops[i])
    requires Countable(InterpretAll(NO_HALLS, ops, fails, 0).0)
    ensures DecodeSession(Requests(session, ops)) == Some(Session(ops, IntBytes(session)))
    ensures var printed := L.Replies(ops, Serve([], ops, fails, 0).1);
            && printed.Some? && printed.value.rest == []
            && printed.value.text == InterpretAll(NO_HALLS, ops, fails, 0).1
            && CodesOf(printed.value.replies) == InterpretAll(NO_HALLS, ops, fails, 0).2
  {
    hide L.Replies, Serve, DecodeSession, Sendable, ValidOp, InterpretAll, Countable, CodesOf;
    hide EncodeRequests, EncodeQuit, IntBytes;
    SessionRoundTrip(session, ops, []);
    assert Requests(session, ops) + [] == Requests(session, ops);
    assert IntBytes(session) + [] == IntBytes(session);
    NothingMatches();
    hide Matches;
    PrintsDirectly([], NO_HALLS, ops, fails, 0, []);
    assert Serve([], ops, fails, 0).1 + [] == Serve([], ops, fails, 0).1;
  }

  /**
   * End to end: for every command file whose numerals fit the parser, the server decodes exactly the file's
   * operations from what the client sends, and what the client prints from what the server answers is what
   * interpreting the operations directly prints. Only the counters must not have wrapped.
   */
  lemma WholeSession(text: seq<char>, eof: Option<uint>, session: int32, fails: nat -> bool)
    requires L.Defined(Items(text, eof))
    requires Countable(InterpretAll(NO_HALLS, L.Ops(Items(text, eof)), fails, 0).0)
    ensures var ops := L.Ops(Items(text, eof));
            && DecodeSession(Requests(session, ops)) == Some(Session(ops, IntBytes(session)))
            && var printed := L.Replies(ops, Serve([], ops, fails, 0).1);
            && printed.Some? && printed.value.rest == []
            && printed.value.text == InterpretAll(NO_HALLS, ops, fails, 0).1
            && CodesOf(printed.value.replies) == InterpretAll(NO_HALLS, ops, fails, 0).2
  {
    hide *;
    ServedSession(L.Ops(Items(text, eof)), session, fails);
  }

  /** The same for a file written from any list of well-formed commands. */
  lemma WrittenFile(items: seq<Item>, eof: Option<uint>, session: int32, fails: nat -> bool)
    requires (forall i :: 0 <= i < |items| ==> J.Writable(items[i])) && |items| <= UINT_MAX
    ensures Items(J.Text(items), eof) == items
    ensures forall i :: 0 <= i < |items| && items[i].Do? ==> ByClient(items[i].op)
    ensures var ops := L.Ops(items);
            && DecodeSession(Requests(session, ops)) == Some(Session(ops, IntBytes(session)))
            && var printed := L.Replies(ops, Serve([], ops, fails, 0).1);
            && printed.Some? && printed.value.rest == []
            && printed.value.text == InterpretAll(NO_HALLS, ops, fails, 0).1
            && CodesOf(printed.value.replies) == InterpretAll(NO_HALLS, ops, fails, 0).2
  {
    J.FileRoundTrip(items, eof);
    FewOps(items);
    assert Fits(NO_HALLS) && forall id :: id !in NO_HALLS.of;
    hide *;
    FewOperationsCount(NO_HALLS, L.Ops(items), fails, 0);
    ServedSession(L.Ops(items), session, fails);
  }

  lemma {:induction false} FewOps(items: seq<Item>)
    requires forall i :: 0 <= i < |items| && items[i].Do? ==> ByClient(items[i].op)
    ensures |L.Ops(items)| <= |items|
  {
    hide ByClient, Sendable;
    if items != [] { FewOps(items[1..]); }
  }

  // ---- With a condition on the command file ------------------------------------------------------------------

  lemma {:induction false} ItemsAtMost(text: seq<char>, eof: Option<uint>)
    ensures |Items(text, eof)| <= |text|
    decreases |text|
  {
    hide NextItem, ByClient;
    if text != [] { ItemsAtMost(NextItem(text, eof).1, eof); }
  }

  predicate SmallGrids(ops: seq<Op>) {
    forall i :: 0 <= i < |ops| && ops[i].Create? ==> ops[i].rows * ops[i].cols <= UINT_MAX
  }

  /** The file has fewer than 2^32 characters, or creates no event with 2^32 seats or more. */
  predicate CannotWrap(text: seq<char>, eof: Option<uint>) {
    |text| <= UINT_MAX || SmallGrids(L.Ops(Items(text, eof)))
  }

  /** No counter wraps while such a file is served. */
  lemma InputCounts(text: seq<char>, eof: Option<uint>, fails: nat -> bool)
    requires CannotWrap(text, eof)
    ensures Countable(InterpretAll(NO_HALLS, L.Ops(Items(text, eof)), fails, 0).0)
  {
    var ops := L.Ops(Items(text, eof));
    ItemsAtMost(text, eof);
    FewOps(Items(text, eof));
    assert Fits(NO_HALLS) && Small(NO_HALLS) && forall id :: id !in NO_HALLS.of;
    if |text| <= UINT_MAX {
      hide *;
      FewOperationsCount(NO_HALLS, ops, fails, 0);
    } else {
      forall i | 0 <= i < |ops| ensures ValidOp(ops[i]) && SmallOp(ops[i]) { assert ByClient(ops[i]); }
      hide *;
      SmallGridsCount(NO_HALLS, ops, fails, 0);
    }
  }

  /** End to end for every command file that cannot wrap a counter. */
  lemma WholeSessionOnInput(text: seq<char>, eof: Option<uint>, session: int32, fails: nat -> bool)
    requires L.Defined(Items(text, eof)) && CannotWrap(text, eof)
    ensures var ops := L.Ops(Items(text, eof));
            && DecodeSession(Requests(session, ops)) == Some(Session(ops, IntBytes(session)))
            && var printed := L.Replies(ops, Serve([], ops, fails, 0).1);
            && printed.Some? && printed.value.rest == []
            && printed.value.text == InterpretAll(NO_HALLS, ops, fails, 0).1
            && CodesOf(printed.value.replies) == InterpretAll(NO_HALLS, ops, fails, 0).2
  {
    hide *;
    InputCounts(text, eof, fails);
    WholeSession(text, eof, session, fails);
  }

  /** `RunBoth` for every command file that cannot wrap a counter. */
  method RunBothOnInput(text: seq<char>, eof: Option<uint>, session: int32, fails: nat -> bool)
    returns (sent: seq<byte>, received: seq<byte>, output: seq<char>)
    requires L.Defined(Items(text, eof)) && CannotWrap(text, eof)
    ensures sent == received
    ensures output == InterpretAll(NO_HALLS, L.Ops(Items(text, eof)), fails, 0).1
  {
    hide *;
    InputCounts(text, eof, fails);
    sent, received, output := RunBoth(text, eof, session, fails);
  }

  /**
   * Both programs run on each other's output: the server on the bytes the client turns out to send, the
   * client on the bytes the server turned out to answer.
   */
  method RunBoth(text: seq<char>, eof: Option<uint>, session: int32, fails: nat -> bool)
    returns (sent: seq<byte>, received: seq<byte>, output: seq<char>)
    requires L.Defined(Items(text, eof))
    requires Countable(InterpretAll(NO_HALLS, L.Ops(Items(text, eof)), fails, 0).0)
    ensures sent == received
    ensures output == InterpretAll(NO_HALLS, L.Ops(Items(text, eof)), fails, 0).1
  {
    WholeSession(text, eof, session, fails);
    received := Requests(session, L.Ops(Items(text, eof)));
    hide *;
    ghost var ops := L.Ops(Items(text, eof));
    ghost var answered := Serve([], ops, fails, 0).1;

    var engine := new S.Engine();
    var request := new Source<byte>(received);
    var response := new Sink<byte>();
    H.HandleClient(engine, request, response, fails);
    assert response.written == [] + answered == answered;

    var file := new TextFile(text);
    var sink := new Sink<byte>();
    var answers := new Source<byte>(response.written);
    var out := new Sink<char>();
    var client := new Client(session, sink, answers);
    L.Run(file, client, out, eof);
    sent, output := sink.written, out.written;
    assert sent == received by { Sent(session, ops, []); }
  }

  lemma Sent(session: int32, ops: seq<Op>, w: seq<byte>)
    requires forall i :: 0 <= i < |ops| ==> Sendable(ops[i])
    ensures w + EncodeRequests(session, ops) + EncodeQuit(session) == w + Requests(session, ops)
    ensures w == [] ==> w + Requests(session, ops) == Requests(session, ops)
  {
    hide EncodeRequests, EncodeQuit, Sendable;
    Associate(w, EncodeRequests(session, ops), EncodeQuit(session));
  }
}
