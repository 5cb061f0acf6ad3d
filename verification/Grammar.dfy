/**
 * The command language of the client's files, written down without the parser: which texts spell which command.
 * The reader (parser.c) is proved to read a command exactly when it is spelled.
 */
module Grammar {
  import opened Common
  import opened Seats
  import opened Ems
  import opened Numbers
  import opened Parser
  import opened Lines

  // ---- The language ---------------------------------------------------------------------------------------------

  /** `t` is a numeral for `v`, possibly empty or with zeros in front, then the character `c`, then `u`. */
  ghost predicate NumeralThen(t: seq<char>, v: nat, c: char, u: seq<char>) {
    v <= 0xFFFF_FFFF && exists digits :: AllDigits(digits) && ValueOf(digits) == v && t == digits + ([c] + u)
  }

  /**
   * `t` starts with a numeral for `v` that ends a command: before a newline or a NUL, or at the end of the
   * file, where `eof` stands for its value.
   */
  ghost predicate LastNumeral(t: seq<char>, v: nat, eof: Option<uint>) {
    || (AllDigits(t) && eof.Some? && eof.value == v)
    || (exists c, u :: EndsLine(c) && NumeralThen(t, v, c, u))
  }

  /** One pair, and what follows its closing parenthesis. */
  ghost predicate PairThen(t: seq<char>, seat: Seat, next: seq<char>) {
    && t != [] && t[0] == '('
    && exists second :: NumeralThen(t[1..], seat.row, ',', second) && NumeralThen(second, seat.col, ')', next)
  }

  /** `t` is the pairs of `req`, separated by spaces, and a closing bracket, then `w`. */
  ghost predicate SeatsThen(t: seq<char>, req: seq<Seat>, w: seq<char>)
    decreases |req|
  {
    && req != []
    && exists next ::
      && PairThen(t, req[0], next) && next != []
      && if |req| == 1 then next[0] == ']' && w == next[1..] else next[0] == ' ' && SeatsThen(next[1..], req[1..], w)
  }

  ghost predicate SpellsCreate(t: seq<char>, id: uint, rows: size, cols: size, eof: Option<uint>) {
    exists u, w :: NumeralThen(t, id, ' ', u) && NumeralThen(u, rows, ' ', w) && LastNumeral(w, cols, eof)
  }

  ghost predicate SpellsReserve(t: seq<char>, id: uint, req: seq<Seat>) {
    && |req| < 256
    && exists u, w ::
      NumeralThen(t, id, ' ', u) && u != [] && u[0] == '[' && SeatsThen(u[1..], req, w) && w != [] && EndsLine(w[0])
  }

  ghost predicate SpellsWait(t: seq<char>, delay: uint, eof: Option<uint>) {
    LastNumeral(t, delay, eof) || exists u :: NumeralThen(t, delay, ' ', u)
  }

  predicate Readable(item: Item) {
    !item.Invalid? && !item.Undefined?
  }

  function Word(item: Item): (w: seq<char>)
    requires Readable(item) && !item.Empty?
    ensures w != []
  {
    match item
    case Do(Create(_, _, _)) => "CREATE "
    case Do(Reserve(_, _)) => "RESERVE "
    case Do(Show(_)) => "SHOW "
    case Do(ListEvents) => "LIST"
    case Wait(_) => "WAIT "
    case _ => "HELP"
  }

  /** What follows the word. */
  ghost predicate SpellsArguments(t: seq<char>, item: Item, eof: Option<uint>)
    requires Readable(item) && !item.Empty?
  {
    match item
    case Do(Create(id, rows, cols)) => SpellsCreate(t, id, rows, cols, eof)
    case Do(Reserve(id, req)) => SpellsReserve(t, id, req)
    case Do(Show(id)) => LastNumeral(t, id, eof)
    case Wait(delay) => SpellsWait(t, delay, eof)
    case Do(ListEvents) => t == [] || t[0] == '\n'
    case Help => t == [] || t[0] == '\n'
    case _ => false
  }

  /** The text starts with a command, an empty line or a comment. */
  ghost predicate Spells(s: seq<char>, item: Item, eof: Option<uint>)
    requires s != [] && Readable(item)
  {
    if item.Empty? then s[0] == '\n' || s[0] == '#'
    else Word(item) <= s && SpellsArguments(s[|Word(item)|..], item, eof)
  }

  // ---- Numerals ---------------------------------------------------------------------------------------------------

  lemma NumeralThenIs(t: seq<char>, v: nat, c: char, u: seq<char>)
    requires !IsDigit(c)
    ensures NumeralThen(t, v, c, u)
       <==> (v <= UINT_MAX && DigitRun(t) < |t| && t[DigitRun(t)] == c && ValueOf(t[..DigitRun(t)]) == v
             && u == t[DigitRun(t) + 1..])
  {
    hide ValueOf, DigitRun;
    if NumeralThen(t, v, c, u) {
      var digits :| AllDigits(digits) && ValueOf(digits) == v && t == digits + ([c] + u);
      assert t == digits + [c] + u;
      DigitRunIs(digits, c, u);
      assert t[..|digits|] == digits && t[|digits| + 1..] == u;
    }
    var d := DigitRun(t);
    if d < |t| && t[d] == c {
      assert t == t[..d] + ([c] + t[d + 1..]);
    }
  }

  lemma NumeralReads(t: seq<char>, v: nat, c: char, u: seq<char>, eof: Option<uint>)
    requires !ParseUint(t, eof).0.Overrun? && !IsDigit(c) && c != '\0'
    ensures var (n, r) := ParseUint(t, eof);
            NumeralThen(t, v, c, u) <==> n.Number? && n.value == v && n.next == c && r == u
  {
    NumeralThenIs(t, v, c, u);
    hide ValueOf, DigitRun, NumeralThen;
  }

  lemma LastReads(t: seq<char>, v: nat, eof: Option<uint>)
    requires !ParseUint(t, eof).0.Overrun?
    ensures LastNumeral(t, v, eof) <==> var n := ParseUint(t, eof).0; n.Number? && EndsLine(n.next) && n.value == v
  {
    hide ValueOf, DigitRun, NumeralThen;
    var d := DigitRun(t);
    forall c, u | EndsLine(c) && NumeralThen(t, v, c, u)
      ensures v <= UINT_MAX && d < |t| && t[d] == c && ValueOf(t[..d]) == v
    {
      NumeralThenIs(t, v, c, u);
    }
    if d < |t| {
      if EndsLine(t[d]) { NumeralThenIs(t, v, t[d], t[d + 1..]); }
    } else {
      assert t[..d] == t;
    }
  }

  // ---- Arguments --------------------------------------------------------------------------------------------------

  lemma WaitReads(t: seq<char>, delay: uint, eof: Option<uint>)
    requires !ParseWait(t, eof).0.Undefined?
    ensures ParseWait(t, eof).0 == Wait(delay) <==> SpellsWait(t, delay, eof)
  {
    hide ParseUint, AfterLine, LastNumeral, NumeralThen;
    LastReads(t, delay, eof);
    forall u ensures NumeralThen(t, delay, ' ', u) <==> ParseUint(t, eof) == (Number(delay, ' '), u) {
      NumeralReads(t, delay, ' ', u, eof);
    }
  }

  lemma ShowReads(t: seq<char>, id: uint, eof: Option<uint>)
    requires !ParseShow(t, eof).0.Undefined?
    ensures ParseShow(t, eof).0 == Do(Show(id)) <==> LastNumeral(t, id, eof)
  {
    hide ParseUint, AfterLine, LastNumeral;
    LastReads(t, id, eof);
  }

  lemma CreateReads(t: seq<char>, id: uint, rows: size, cols: size, eof: Option<uint>)
    requires !ParseCreate(t, eof).0.Undefined?
    ensures ParseCreate(t, eof).0 == Do(Create(id, rows, cols)) <==> SpellsCreate(t, id, rows, cols, eof)
  {
    hide ParseUint, AfterLine, LastNumeral, NumeralThen;
    if ParseCreate(t, eof).0 == Do(Create(id, rows, cols)) {
      var u := ParseUint(t, eof).1;
      var w := ParseUint(u, eof).1;
      NumeralReads(t, id, ' ', u, eof);
      NumeralReads(u, rows, ' ', w, eof);
      LastReads(w, cols, eof);
    }
    if SpellsCreate(t, id, rows, cols, eof) {
      var u, w :| NumeralThen(t, id, ' ', u) && NumeralThen(u, rows, ' ', w) && LastNumeral(w, cols, eof);
      NumeralReads(t, id, ' ', u, eof);
      NumeralReads(u, rows, ' ', w, eof);
      LastReads(w, cols, eof);
    }
  }

  /** The second number of a pair. */
  lemma SecondReads(x: uint, t: seq<char>, col: size, next: seq<char>, eof: Option<uint>)
    requires !ParseSecond(x, t, eof).0.PairOverrun? && next != [] && (next[0] == ' ' || next[0] == ']')
    ensures ParseSecond(x, t, eof) == (Pair(Seat(x, col), next[0]), next[1..]) <==> NumeralThen(t, col, ')', next)
  {
    hide ParseUint, NumeralThen;
    NumeralReads(t, col, ')', next, eof);
    var q := ParseUint(t, eof).1;
    if q != [] && q[0] == next[0] && q[1..] == next[1..] {
      assert q == [q[0]] + q[1..] == [next[0]] + next[1..] == next;
    }
  }

  lemma PairReads(t: seq<char>, seat: Seat, next: seq<char>, eof: Option<uint>)
    requires !ParsePair(t, eof).0.PairOverrun? && next != [] && (next[0] == ' ' || next[0] == ']')
    ensures ParsePair(t, eof) == (Pair(seat, next[0]), next[1..]) <==> PairThen(t, seat, next)
  {
    hide ParseUint, ParseSecond, NumeralThen;
    if t != [] && t[0] == '(' {
      var (n, second) := ParseUint(t[1..], eof);
      forall u ensures NumeralThen(t[1..], seat.row, ',', u)
                  <==> n.Number? && n.value == seat.row && n.next == ',' && second == u {
        NumeralReads(t[1..], seat.row, ',', u, eof);
      }
      if n.Number? && n.next == ',' {
        SecondIsFirst(n.value, second, eof);
        SecondReads(n.value, second, seat.col, next, eof);
      }
    }
  }

  /** The first number of a pair is the one read before. */
  lemma SecondIsFirst(x: uint, t: seq<char>, eof: Option<uint>)
    ensures var p := ParseSecond(x, t, eof).0; p.Pair? ==> p.seat.row == x
  {
    hide ParseUint;
  }

  lemma {:induction false} PairsRead(t: seq<char>, req: seq<Seat>, w: seq<char>, eof: Option<uint>, room: nat)
    requires !ParsePairs(t, eof, room).0.CoordsOverrun? && |req| < room
    ensures ParsePairs(t, eof, room) == (Coords(req), w) <==> SeatsThen(t, req, w)
    decreases room
  {
    hide ParsePair, PairThen;
    var (p, r) := ParsePair(t, eof);
    if ParsePairs(t, eof, room) == (Coords(req), w) {
      var next := [p.next] + r;
      assert next[1..] == r;
      NextIs(t, eof);
      PairReads(t, p.seat, next, eof);
      if p.next == ' ' {
        var later := ParsePairs(r, eof, room - 1).0.req;
        assert req[1..] == later;
        PairsRead(r, later, w, eof, room - 1);
      }
    }
    if SeatsThen(t, req, w) {
      var next :| PairThen(t, req[0], next) && next != []
                  && if |req| == 1 then next[0] == ']' && w == next[1..]
                     else next[0] == ' ' && SeatsThen(next[1..], req[1..], w);
      PairReads(t, req[0], next, eof);
      if |req| > 1 {
        PairsRead(next[1..], req[1..], w, eof, room - 1);
        assert [req[0]] + req[1..] == req;
      } else {
        assert [req[0]] == req;
      }
    }
  }

  lemma NextIs(t: seq<char>, eof: Option<uint>)
    ensures var p := ParsePair(t, eof).0; p.Pair? ==> p.next == ' ' || p.next == ']'
  {
    hide ParseUint;
  }

  lemma ReserveReads(t: seq<char>, id: uint, req: seq<Seat>, eof: Option<uint>)
    requires !ParseReserve(t, eof).0.Undefined?
    ensures ParseReserve(t, eof).0 == Do(Reserve(id, req)) <==> SpellsReserve(t, id, req)
  {
    hide ParseUint, ParsePairs, AfterLine, NumeralThen, SeatsThen;
    if ParseReserve(t, eof).0 == Do(Reserve(id, req)) {
      var u := ParseUint(t, eof).1;
      NumeralReads(t, id, ' ', u, eof);
      var w := ParsePairs(u[1..], eof, MAX_RESERVATION_SIZE).1;
      PairsRead(u[1..], req, w, eof, MAX_RESERVATION_SIZE);
    }
    if SpellsReserve(t, id, req) {
      var u, w :| NumeralThen(t, id, ' ', u) && u != [] && u[0] == '[' && SeatsThen(u[1..], req, w)
                  && w != [] && EndsLine(w[0]);
      NumeralReads(t, id, ' ', u, eof);
      PairsRead(u[1..], req, w, eof, MAX_RESERVATION_SIZE);
    }
  }

  // ---- Whole turns ------------------------------------------------------------------------------------------------

  /** The command an item comes from. */
  function KindOf(item: Item): Command
    requires Readable(item) && !item.Empty?
  {
    match item
    case Do(Create(_, _, _)) => CREATE
    case Do(Reserve(_, _)) => RESERVE
    case Do(Show(_)) => SHOW
    case Do(ListEvents) => LIST
    case Wait(_) => WAIT
    case _ => HELP
  }

  /** The words of the language are those the reader compares with. */
  lemma Words(item: Item)
    requires Readable(item) && !item.Empty?
    ensures var first := Word(item)[0]; WordOf(first) == Word(item) && CommandOf(first) == KindOf(item)
    ensures Word(item)[0] != '\n' && Word(item)[0] != '#'
  {
  }

  /** After a word only its own command or a rejection is read. */
  lemma OwnKind(command: Command, t: seq<char>, eof: Option<uint>)
    requires !command.EMPTY? && !command.INVALID?
    ensures var (c, r) := AfterWord(command, t);
            var item := ParseArguments(c, r, eof).0;
            Readable(item) ==> !item.Empty? && KindOf(item) == command
  {
    hide ParseCreate, ParseReserve, ParseShow, ParseWait, AfterLine;
    CreateKind(t, eof);
    ReserveKind(t, eof);
    ShowKind(t, eof);
  }

  lemma CreateKind(t: seq<char>, eof: Option<uint>)
    ensures var item := ParseCreate(t, eof).0; Readable(item) ==> item.Do? && item.op.Create?
  {
    hide ParseUint, AfterLine;
  }

  lemma ReserveKind(t: seq<char>, eof: Option<uint>)
    ensures var item := ParseReserve(t, eof).0; Readable(item) ==> item.Do? && item.op.Reserve?
  {
    hide ParseUint, ParsePairs, AfterLine;
  }

  lemma ShowKind(t: seq<char>, eof: Option<uint>)
    ensures var item := ParseShow(t, eof).0; Readable(item) ==> item.Do? && item.op.Show?
    ensures var item := ParseWait(t, eof).0; Readable(item) ==> item.Wait?
  {
    hide ParseUint, AfterLine;
  }

  lemma ArgumentsReadIff(command: Command, t: seq<char>, item: Item, eof: Option<uint>)
    requires Readable(item) && !item.Empty? && KindOf(item) == command
    requires var (c, r) := AfterWord(command, t); !ParseArguments(c, r, eof).0.Undefined?
    ensures var (c, r) := AfterWord(command, t);
            ParseArguments(c, r, eof).0 == item <==> SpellsArguments(t, item, eof)
  {
    hide ParseCreate, ParseReserve, ParseShow, ParseWait, AfterLine;
    hide SpellsCreate, SpellsReserve, SpellsWait, LastNumeral;
    match item
    case Do(Create(id, rows, cols)) => CreateReads(t, id, rows, cols, eof);
    case Do(Reserve(id, req)) => ReserveReads(t, id, req, eof);
    case Do(Show(id)) => ShowReads(t, id, eof);
    case Wait(delay) => WaitReads(t, delay, eof);
    case Do(ListEvents) =>
    case Help =>
    case _ =>
  }

  /** Reading a text whose word matches, and one whose word does not. */
  lemma WordDecides(s: seq<char>, eof: Option<uint>)
    requires s != []
    ensures var w := WordOf(s[0]);
            if w != [] && w <= s then
              var (c, r) := AfterWord(CommandOf(s[0]), s[|w|..]);
              NextItem(s, eof).0 == ParseArguments(c, r, eof).0 && !CommandOf(s[0]).EMPTY? && !CommandOf(s[0]).INVALID?
            else NextItem(s, eof).0 == if s[0] == '\n' || s[0] == '#' then Empty else Invalid
  {
    hide WordOf, AfterWord, AfterLine, ParseArguments;
    CompleteReads(s, eof);
    NoWord(s[0]);
  }

  lemma NoWord(first: char)
    ensures first == '\n' || first == '#' ==> WordOf(first) == []
    ensures !CommandOf(first).EMPTY?
  {
  }

  /**
   * The reader reads exactly the language: for every text, a turn that is defined reads an operation, a wait, a
   * help or an empty line if and only if the text starts with its spelling.
   */
  lemma ReadsIff(s: seq<char>, item: Item, eof: Option<uint>)
    requires s != [] && Readable(item) && !NextItem(s, eof).0.Undefined?
    ensures NextItem(s, eof).0 == item <==> Spells(s, item, eof)
  {
    hide NextItem, WordOf, CommandOf, AfterWord, ParseArguments, SpellsArguments, Word;
    WordDecides(s, eof);
    NoWord(s[0]);
    var w := WordOf(s[0]);
    if !item.Empty? {
      Words(item);
      if Word(item) <= s { assert s[0] == Word(item)[0]; }
    }
    if w != [] && w <= s {
      OwnKind(CommandOf(s[0]), s[|w|..], eof);
      if !item.Empty? {
        if KindOf(item) == CommandOf(s[0]) {
          SameWord(item, s[0]);
          ArgumentsReadIff(CommandOf(s[0]), s[|w|..], item, eof);
        }
      }
    }
  }

  lemma SameWord(item: Item, first: char)
    requires Readable(item) && !item.Empty? && KindOf(item) == CommandOf(first)
    ensures WordOf(first) == Word(item)
  {
  }

  /** Everything else is rejected. */
  lemma InvalidIff(s: seq<char>, eof: Option<uint>)
    requires s != [] && !NextItem(s, eof).0.Undefined?
    ensures NextItem(s, eof).0 == Invalid <==> forall item :: Readable(item) ==> !Spells(s, item, eof)
  {
    hide NextItem, Spells;
    var read := NextItem(s, eof).0;
    if Readable(read) { ReadsIff(s, read, eof); }
    forall item | Readable(item) ensures NextItem(s, eof).0 == item <==> Spells(s, item, eof) {
      ReadsIff(s, item, eof);
    }
  }

  // ---- Some lines in full -----------------------------------------------------------------------------------------

  /** A comment is an empty line and costs only itself. */
  lemma CommentReads(comment: seq<char>, rest: seq<char>, eof: Option<uint>)
    requires '\n' !in comment
    ensures NextItem(Ended("#" + comment, rest), eof) == (Empty, rest)
  {
    hide AfterLine, Ended, WordOf;
    var s := Ended("#" + comment, rest);
    Head("#" + comment, rest);
    assert ("#" + comment)[0] == '#' && ("#" + comment)[1..] == comment;
    NoWord('#');
    SkipLine(comment, rest);
    CompleteReads(s, eof);
  }

  lemma NoOtherWord(first: char)
    requires first !in "CRSLWH"
    ensures WordOf(first) == []
  {
  }

  /** A line that starts with another letter is rejected and costs only itself. */
  lemma StrangeLineReads(line: seq<char>, rest: seq<char>, eof: Option<uint>)
    requires line != [] && '\n' !in line && line[0] !in "CRSLWH" && line[0] != '#'
    ensures NextItem(Ended(line, rest), eof) == (Invalid, rest)
  {
    hide AfterLine, Ended, WordOf;
    Head(line, rest);
    assert line[0] in line && line[0] != '\n';
    NoOtherWord(line[0]);
    SkipLine(line[1..], rest);
    CompleteReads(Ended(line, rest), eof);
  }

  /** LIST and HELP followed by anything on their line are rejected. */
  lemma NothingAfterTheWord(word: seq<char>, tail: seq<char>, rest: seq<char>, eof: Option<uint>)
    requires (word == "LIST" || word == "HELP") && tail != [] && '\n' !in tail
    ensures NextItem(Ended(word + tail, rest), eof) == (Invalid, rest)
  {
    hide AfterLine, Ended;
    var s := Ended(word + tail, rest);
    Head(tail, rest);
    assert tail[0] in tail;
    SkipLine(tail[1..], rest);
    assert s[0] == word[0] && s[..4] == word && s[4..] == Ended(tail, rest) by { FourLetters(word, tail, rest); }
    assert WordOf(s[0]) == word;
    hide WordOf;
    CompleteReads(s, eof);
  }

  lemma FourLetters(word: seq<char>, tail: seq<char>, rest: seq<char>)
    requires |word| == 4
    ensures var s := Ended(word + tail, rest);
            |s| > 4 && s[0] == word[0] && s[..4] == word && s[4..] == Ended(tail, rest)
  {
  }
}
