/** The parsers of parser.c over an open file, proved to compute what the Parser module says. */
module Reader {
  import opened Common
  import opened Seats
  import opened Ems
  import opened Numbers
  import opened Parser
  import opened Pipes
  import opened Wire

  /** `read(fd, &ch, 1) == 1`, with the character. */
  method ReadChar(fd: TextFile) returns (ok: bool, ch: char)
    modifies fd
    ensures fd.rest == Rest(old(fd.rest), 1)
    ensures ok <==> old(fd.rest) != []
    ensures ok ==> ch == old(fd.rest)[0]
  {
    var buffer := new char[1](i => '\0');
    var k := fd.Read(buffer, 0, 1);
    return k == 1, buffer[0];
  }

  /** `cleanup`. */
  method Cleanup(fd: TextFile)
    modifies fd
    ensures fd.rest == AfterLine(old(fd.rest))
  {
    var more := true;
    while more
      invariant AfterLine(old(fd.rest)) == if more then AfterLine(fd.rest) else fd.rest
      decreases more, |fd.rest|
    {
      var ok, ch := ReadChar(fd);
      more := ok && ch != '\n';
    }
  }

  /** `get_next`; `None` is EOC. */
  method GetNextFrom(fd: TextFile) returns (command: Option<Command>)
    modifies fd
    ensures old(fd.rest) == [] ==> command == None && fd.rest == []
    ensures old(fd.rest) != [] ==> command.Some? && (command.value, fd.rest) == GetNext(old(fd.rest))
  {
    hide AfterLine, AfterWord, WordOf, Rest;
    ghost var s := fd.rest;
    var buf := new char[16](i => '\0');
    var got := fd.Read(buf, 0, 1);
    if got != 1 {
      return None;
    }
    var w := WordOf(buf[0]);
    if w == [] {
      if buf[0] == '\n' {
        return Some(EMPTY);
      }
      var comment := buf[0] == '#';
      Cleanup(fd);
      return Some(if comment then EMPTY else INVALID);
    }
    var word := CommandOf(buf[0]);
    assert [s[0]] + s[1..] == s;
    var matches := MatchWord(fd, buf, w);
    if !matches {
      Cleanup(fd);
      return Some(INVALID);
    }
    RestIs(s, |w|);
    word := EndWord(fd, buf, word);
    return Some(word);
  }

  /** Reading the rest of a word and comparing, as every case of `get_next` does. */
  method MatchWord(fd: TextFile, buf: array<char>, w: seq<char>) returns (matches: bool)
    requires buf.Length == 16 && 1 <= |w| <= 8
    modifies fd, buf
    ensures var s := [old(buf[0])] + old(fd.rest);
            && (matches <==> |s| >= |w| && s[..|w|] == w)
            && fd.rest == Rest(s, |w|)
  {
    ghost var s := [buf[0]] + fd.rest;
    var got := fd.Read(buf, 1, |w| - 1);
    ReadWord(s, buf[..|w|], w, got);
    assert s[1..] == old(fd.rest);
    matches := got == |w| - 1 && buf[..|w|] == w;
  }

  /** The end of the LIST and HELP cases of `get_next`. */
  method EndWord(fd: TextFile, buf: array<char>, word: Command) returns (command: Command)
    requires buf.Length == 16
    modifies fd, buf
    ensures (command, fd.rest) == AfterWord(word, old(fd.rest))
  {
    hide AfterLine;
    if word.LIST? || word.HELP? {
      ghost var t := fd.rest;
      var got := fd.Read(buf, 4, 1);
      if got != 0 && buf[4] != '\n' {
        assert fd.rest == t[1..];
        Cleanup(fd);
        return INVALID;
      }
    }
    return word;
  }

  /** The comparison of the buffer with the word agrees with comparing the text. */
  lemma ReadWord(s: seq<char>, buf: seq<char>, w: seq<char>, got: nat)
    requires s != [] && w != [] && |buf| == |w| && got == Min(|w| - 1, |s| - 1)
    requires forall i :: 0 <= i <= got ==> buf[i] == s[i]
    ensures got != |w| - 1 || buf != w <==> |s| < |w| || s[..|w|] != w
    ensures s[1..][got..] == Rest(s, |w|)
  {
    if got == |w| - 1 { assert buf == s[..|w|]; }
  }

  /** `parse_create`: the event id, rows and columns, or a rejected line. */
  method ParseCreateFrom(fd: TextFile, eof: Option<uint>) returns (item: Item)
    modifies fd
    ensures item == ParseCreate(old(fd.rest), eof).0
    ensures !item.Undefined? ==> fd.rest == ParseCreate(old(fd.rest), eof).1
  {
    hide ParseUint, AfterLine;
    var id := ParseUintFrom(fd, eof);
    if id.Overrun? { return Undefined; }
    if id.TooBig? || id.next != ' ' {
      Cleanup(fd);
      return Invalid;
    }
    var rows := ParseUintFrom(fd, eof);
    if rows.Overrun? { return Undefined; }
    if rows.TooBig? || rows.next != ' ' {
      Cleanup(fd);
      return Invalid;
    }
    var cols := ParseUintFrom(fd, eof);
    if cols.Overrun? { return Undefined; }
    if cols.TooBig? || (cols.next != '\n' && cols.next != '\0') {
      Cleanup(fd);
      return Invalid;
    }
    return Do(Create(id.value, rows.value, cols.value));
  }

  /** `parse_show`. */
  method ParseShowFrom(fd: TextFile, eof: Option<uint>) returns (item: Item)
    modifies fd
    ensures item == ParseShow(old(fd.rest), eof).0
    ensures !item.Undefined? ==> fd.rest == ParseShow(old(fd.rest), eof).1
  {
    hide ParseUint, AfterLine;
    var id := ParseUintFrom(fd, eof);
    if id.Overrun? { return Undefined; }
    if id.TooBig? || (id.next != '\n' && id.next != '\0') {
      Cleanup(fd);
      return Invalid;
    }
    return Do(Show(id.value));
  }

  /** `parse_wait` as the client calls it, without a thread id. */
  method ParseWaitFrom(fd: TextFile, eof: Option<uint>) returns (item: Item)
    modifies fd
    ensures item == ParseWait(old(fd.rest), eof).0
    ensures !item.Undefined? ==> fd.rest == ParseWait(old(fd.rest), eof).1
  {
    hide ParseUint, AfterLine;
    var delay := ParseUintFrom(fd, eof);
    if delay.Overrun? { return Undefined; }
    if delay.TooBig? {
      Cleanup(fd);
      return Invalid;
    }
    if delay.next == ' ' {
      Cleanup(fd);
      return Wait(delay.value);
    } else if delay.next == '\n' || delay.next == '\0' {
      return Wait(delay.value);
    } else {
      Cleanup(fd);
      return Invalid;
    }
  }

  /** One turn of the loop of `parse_reserve`, up to the character after the closing parenthesis. */
  method ParsePairFrom(fd: TextFile, eof: Option<uint>, xs: array<size>, ys: array<size>, n: nat) returns (p: Pair)
    requires n < xs.Length && n < ys.Length && xs != ys
    modifies fd, xs, ys
    ensures p == ParsePair(old(fd.rest), eof).0
    ensures !p.PairOverrun? ==> fd.rest == ParsePair(old(fd.rest), eof).1
    ensures xs[..n] == old(xs[..n]) && ys[..n] == old(ys[..n])
    ensures p.Pair? ==> Seat(xs[n], ys[n]) == p.seat
  {
    hide ParseUint, Suffix;
    var ok, ch := ReadChar(fd);
    if !ok || ch != '(' { return BadPair; }
    var x := ParseUintFrom(fd, eof);
    if x.Overrun? { return PairOverrun; }
    if x.TooBig? || x.next != ',' { return BadPair; }
    xs[n] := x.value;
    var y := ParseUintFrom(fd, eof);
    if y.Overrun? { return PairOverrun; }
    if y.TooBig? || y.next != ')' { return BadPair; }
    ys[n] := y.value;
    ok, ch := ReadChar(fd);
    if !ok || (ch != ' ' && ch != ']') { return BadPair; }
    return Pair(Seat(x.value, y.value), ch);
  }

  /** The outcome of the whole loop when some pairs are already in the arrays. */
  function Prepend(first: seq<Seat>, r: (Coords, seq<char>)): (Coords, seq<char>) {
    match r
    case (Coords(req), rest) => (Coords(first + req), rest)
    case _ => r
  }

  /** How the loop turns on what it reads. */
  lemma Unroll(first: seq<Seat>, s: seq<char>, eof: Option<uint>, room: nat)
    ensures Prepend([], ParsePairs(s, eof, room)) == ParsePairs(s, eof, room)
    ensures room == 0 ==> Prepend(first, ParsePairs(s, eof, room)) == (BadCoords, s)
    ensures room > 0 ==>
              var whole := Prepend(first, ParsePairs(s, eof, room));
              var (p, r) := ParsePair(s, eof);
              match p
              case PairOverrun => whole.0.CoordsOverrun?
              case BadPair => whole == (BadCoords, r)
              case Pair(seat, next) =>
                if next != ']' then whole == Prepend(first + [seat], ParsePairs(r, eof, room - 1))
                else whole == (if room == 1 then BadCoords else Coords(first + [seat]), r)
  {
    hide ParsePair;
    var all := ParsePairs(s, eof, room).0;
    if all.Coords? { assert [] + all.req == all.req; }
    if room > 0 && ParsePair(s, eof).0.Pair? {
      var (p, r) := ParsePair(s, eof);
      var later := ParsePairs(r, eof, room - 1).0;
      if p.next != ']' && later.Coords? {
        assert first + ([p.seat] + later.req) == first + [p.seat] + later.req;
      }
    }
  }

  lemma PairsSnoc(xs: seq<size>, ys: seq<size>, x: size, y: size)
    requires |xs| == |ys|
    ensures Pairs(xs + [x], ys + [y]) == Pairs(xs, ys) + [Seat(x, y)]
  {
  }

  /** The loop of `parse_reserve`: `ok` is false when it gave up before the closing bracket. */
  method ParsePairsFrom(fd: TextFile, eof: Option<uint>, xs: array<size>, ys: array<size>)
    returns (outcome: Option<nat>, overrun: bool)
    requires xs.Length == MAX_RESERVATION_SIZE && ys.Length == MAX_RESERVATION_SIZE && xs != ys
    modifies fd, xs, ys
    ensures var (coords, rest) := ParsePairs(old(fd.rest), eof, MAX_RESERVATION_SIZE);
            && overrun == coords.CoordsOverrun?
            && (!overrun ==> fd.rest == rest)
            && (outcome.Some? <==> coords.Coords?)
            && (outcome.Some? ==> outcome.value <= MAX_RESERVATION_SIZE
                                  && coords.req == Pairs(xs[..outcome.value], ys[..outcome.value]))
  {
    hide ParsePair, ParsePairs, Pairs, Prepend;
    ghost var whole := ParsePairs(fd.rest, eof, MAX_RESERVATION_SIZE);
    var n := 0;
    assert Pairs(xs[..0], ys[..0]) == [];
    Unroll([], fd.rest, eof, MAX_RESERVATION_SIZE);
    while n < MAX_RESERVATION_SIZE
      invariant n <= MAX_RESERVATION_SIZE
      invariant whole == Prepend(Pairs(xs[..n], ys[..n]), ParsePairs(fd.rest, eof, MAX_RESERVATION_SIZE - n))
    {
      Unroll(Pairs(xs[..n], ys[..n]), fd.rest, eof, MAX_RESERVATION_SIZE - n);
      var p := ParsePairFrom(fd, eof, xs, ys, n);
      if p.PairOverrun? { return None, true; }
      if p.BadPair? { return None, false; }
      assert xs[..n + 1] == xs[..n] + [xs[n]] && ys[..n + 1] == ys[..n] + [ys[n]];
      PairsSnoc(xs[..n], ys[..n], xs[n], ys[n]);
      n := n + 1;
      if p.next == ']' {
        return if n == MAX_RESERVATION_SIZE then None else Some(n), false;
      }
    }
    Unroll(Pairs(xs[..n], ys[..n]), fd.rest, eof, 0);
    return None, false;
  }

  /** `parse_reserve`: the number of coordinates in the arrays, 0 for a rejected line. */
  method ParseReserveFrom(fd: TextFile, eof: Option<uint>, xs: array<size>, ys: array<size>)
    returns (n: nat, id: uint, overrun: bool)
    requires xs.Length == MAX_RESERVATION_SIZE && ys.Length == MAX_RESERVATION_SIZE && xs != ys
    modifies fd, xs, ys
    ensures var (item, rest) := ParseReserve(old(fd.rest), eof);
            && overrun == item.Undefined?
            && (!overrun ==> fd.rest == rest)
            && n <= MAX_RESERVATION_SIZE
            && item == if overrun then Undefined else if n == 0 then Invalid
                       else Do(Reserve(id, Pairs(xs[..n], ys[..n])))
  {
    hide ParseUint, ParsePairs, AfterLine, Pairs;
    var number := ParseUintFrom(fd, eof);
    if number.Overrun? { return 0, 0, true; }
    if number.TooBig? || number.next != ' ' {
      Cleanup(fd);
      return 0, 0, false;
    }
    id := number.value;
    var ok, ch := ReadChar(fd);
    if !ok || ch != '[' {
      Cleanup(fd);
      return 0, id, false;
    }
    var outcome, tooLong := ParsePairsFrom(fd, eof, xs, ys);
    if tooLong { return 0, id, true; }
    if outcome.None? {
      Cleanup(fd);
      return 0, id, false;
    }
    ok, ch := ReadChar(fd);
    if !ok || (ch != '\n' && ch != '\0') {
      Cleanup(fd);
      return 0, id, false;
    }
    return outcome.value, id, false;
  }
}
