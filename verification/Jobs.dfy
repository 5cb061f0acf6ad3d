/** Command files written in the documented form: reading one gives back what was written. */
module Jobs {
  import opened Common
  import opened Seats
  import opened Ems
  import opened Numbers
  import opened Parser
  import opened Lines

  // ---- Writing a file ----------------------------------------------------------------------------------

  /** A line a user can write. */
  predicate Writable(item: Item) {
    match item
    case Do(op) => ByClient(op)
    case Invalid => false
    case Undefined => false
    case _ => true
  }

  function SeatText(s: Seat, rest: seq<char>): seq<char> {
    "(" + (Decimal(s.row) + ("," + (Decimal(s.col) + (")" + rest))))
  }

  function SeatsText(req: seq<Seat>, rest: seq<char>): seq<char>
    requires req != []
  {
    SeatText(req[0], if |req| == 1 then "]" + rest else " " + SeatsText(req[1..], rest))
  }

  /** The arguments of RESERVE, as documented: an event id and a bracketed list of coordinates. */
  function ReserveLine(id: uint, req: seq<Seat>, rest: seq<char>): seq<char>
    requires req != []
  {
    Decimal(id) + (" " + ("[" + SeatsText(req, "\n" + rest)))
  }

  function Arguments(item: Item, rest: seq<char>): seq<char>
    requires Writable(item)
  {
    match item
    case Do(Create(id, rows, cols)) =>
      Decimal(id) + (" " + (Decimal(rows) + (" " + (Decimal(cols) + ("\n" + rest)))))
    case Do(Reserve(id, req)) => ReserveLine(id, req, rest)
    case Do(Show(id)) => Decimal(id) + ("\n" + rest)
    case Wait(delay) => Decimal(delay) + ("\n" + rest)
    case _ => "\n" + rest
  }

  /** The first letter of an item's line. */
  function Initial(item: Item): char
    requires Writable(item)
  {
    match item
    case Do(Create(_, _, _)) => 'C'
    case Do(Reserve(_, _)) => 'R'
    case Do(Show(_)) => 'S'
    case Do(ListEvents) => 'L'
    case Wait(_) => 'W'
    case Help => 'H'
    case _ => '\n'
  }

  /** A file: one line per item in the documented grammar, an empty line for `Empty`. */
  function Text(items: seq<Item>): seq<char>
    requires forall i :: 0 <= i < |items| ==> Writable(items[i])
  {
    if items == [] then []
    else WordOf(Initial(items[0])) + Arguments(items[0], Text(items[1..]))
  }

  // ---- Reading it back -----------------------------------------------------------------------------------

  /** A number followed by the character `c`. */
  lemma ParseNumber(v: uint, c: char, rest: seq<char>, eof: Option<uint>)
    requires !IsDigit(c)
    ensures ParseUint(Decimal(v) + ([c] + rest), eof) == (Number(v, c), rest)
  {
    hide ParseUint, Decimal;
    ParsePrinted(v, c, rest, eof);
    assert Decimal(v) + ([c] + rest) == Decimal(v) + [c] + rest;
  }

  lemma Second<T>(a: T, rest: seq<T>)
    ensures ([a] + rest)[0] == a && ([a] + rest)[1..] == rest
  {
  }

  lemma SecondReads(s: Seat, next: char, rest: seq<char>, eof: Option<uint>)
    requires Parsed(s) && (next == ' ' || next == ']')
    ensures ParseSecond(s.row, Decimal(s.col) + (")" + ([next] + rest)), eof) == (Pair(s, next), rest)
  {
    hide ParseUint, Decimal;
    ParseNumber(s.col, ')', [next] + rest, eof);
    Second(next, rest);
  }

  lemma PairReads(s: Seat, next: char, rest: seq<char>, eof: Option<uint>)
    requires Parsed(s) && (next == ' ' || next == ']')
    ensures ParsePair(SeatText(s, [next] + rest), eof) == (Pair(s, next), rest)
  {
    hide ParseUint, ParseSecond, Decimal;
    var y := Decimal(s.col) + (")" + ([next] + rest));
    Second('(', Decimal(s.row) + ("," + y));
    ParseNumber(s.row, ',', y, eof);
    SecondReads(s, next, rest, eof);
  }

  lemma {:induction false} SeatsRead(req: seq<Seat>, rest: seq<char>, eof: Option<uint>, room: nat)
    requires 1 <= |req| < room && forall i :: 0 <= i < |req| ==> Parsed(req[i])
    ensures ParsePairs(SeatsText(req, rest), eof, room) == (Coords(req), rest)
  {
    hide ParsePair, SeatText;
    if |req| == 1 {
      PairReads(req[0], ']', rest, eof);
      assert [req[0]] == req;
    } else {
      SeatsRead(req[1..], rest, eof, room - 1);
      PairReads(req[0], ' ', SeatsText(req[1..], rest), eof);
      assert [req[0]] + req[1..] == req;
    }
  }

  lemma CreateReads(id: uint, rows: uint, cols: uint, rest: seq<char>, eof: Option<uint>)
    ensures ParseCreate(Arguments(Do(Create(id, rows, cols)), rest), eof) == (Do(Create(id, rows, cols)), rest)
  {
    var third := Decimal(cols) + ("\n" + rest);
    ParseNumber(cols, '\n', rest, eof);
    ParseNumber(rows, ' ', third, eof);
    ParseNumber(id, ' ', Decimal(rows) + (" " + third), eof);
    hide ParseUint, Decimal;
  }

  lemma SeatListReads(id: uint, req: seq<Seat>, rest: seq<char>, eof: Option<uint>)
    requires ByClient(Reserve(id, req))
    ensures ParseSeats(id, "[" + SeatsText(req, "\n" + rest), eof) == (Do(Reserve(id, req)), rest)
  {
    hide ParsePairs, SeatsText, AfterLine;
    Second('[', SeatsText(req, "\n" + rest));
    SeatsRead(req, "\n" + rest, eof, MAX_RESERVATION_SIZE);
    Second('\n', rest);
  }

  lemma ReserveReads(id: uint, req: seq<Seat>, rest: seq<char>, eof: Option<uint>)
    requires ByClient(Reserve(id, req))
    ensures ParseReserve(ReserveLine(id, req, rest), eof) == (Do(Reserve(id, req)), rest)
  {
    hide ParseUint, Decimal, ParseSeats, SeatsText;
    SeatListReads(id, req, rest, eof);
    ParseNumber(id, ' ', "[" + SeatsText(req, "\n" + rest), eof);
  }

  lemma ArgumentsRead(item: Item, rest: seq<char>, eof: Option<uint>)
    requires Writable(item) && !item.Empty?
    ensures var (command, t) := AfterWord(CommandOf(Initial(item)), Arguments(item, rest));
            ParseArguments(command, t, eof) == (item, rest)
  {
    hide ParseCreate, ParseReserve, ReserveLine, Decimal, ParseUint, WordOf, AfterLine;
    match item
    case Do(Create(id, rows, cols)) => CreateReads(id, rows, cols, rest, eof);
    case Do(Reserve(id, req)) => ReserveReads(id, req, rest, eof);
    case Do(Show(id)) => ParseNumber(id, '\n', rest, eof);
    case Wait(delay) => ParseNumber(delay, '\n', rest, eof);
    case _ => Second('\n', rest);
  }

  lemma EmptyLineReads(rest: seq<char>)
    ensures GetNext("\n" + rest) == (EMPTY, rest)
  {
    Second('\n', rest);
  }

  /** One line of a file is read as one item. */
  lemma LineReads(item: Item, rest: seq<char>, eof: Option<uint>)
    requires Writable(item)
    ensures var s := WordOf(Initial(item)) + Arguments(item, rest); s != [] && NextItem(s, eof) == (item, rest)
  {
    if item.Empty? {
      EmptyLineReads(rest);
      assert WordOf('\n') + Arguments(item, rest) == "\n" + rest;
    } else {
      ArgumentsRead(item, rest, eof);
      assert WordOf(Initial(item)) != [];
      hide AfterWord, GetNext, ParseArguments, Arguments, WordOf;
      WordReads(Initial(item), Arguments(item, rest));
    }
  }

  lemma WordReads(first: char, t: seq<char>)
    requires WordOf(first) != []
    ensures GetNext(WordOf(first) + t) == AfterWord(CommandOf(first), t)
  {
    hide WordOf, AfterWord;
    var w := WordOf(first);
    assert (w + t)[0] == first && (w + t)[..|w|] == w && (w + t)[|w|..] == t;
  }

  lemma ItemsFirst(s: seq<char>, eof: Option<uint>, item: Item, r: seq<char>)
    requires s != [] && NextItem(s, eof) == (item, r) && !item.Undefined?
    ensures Items(s, eof) == [item] + Items(r, eof)
  {
  }

  /** The whole-file round trip: reading a written file gives back exactly its items, then the end of the file. */
  lemma {:induction false} FileRoundTrip(items: seq<Item>, eof: Option<uint>)
    requires forall i :: 0 <= i < |items| ==> Writable(items[i])
    ensures Items(Text(items), eof) == items
  {
    hide WordOf, Arguments, NextItem, Items;
    if items == [] {
      NoItems(eof);
    } else {
      assert Writable(items[0]);
      hide Writable;
      var later := Text(items[1..]);
      LineReads(items[0], later, eof);
      ItemsFirst(Text(items), eof, items[0], later);
      FileRoundTrip(items[1..], eof);
      assert [items[0]] + items[1..] == items;
    }
  }

  lemma NoItems(eof: Option<uint>)
    ensures Items([], eof) == []
  {
  }

  // ---- Where the reader parts from a line-by-line reading -----------------------------------------------

  /** As many coordinates as the arrays hold, or more, are rejected. */
  lemma {:induction false} TooManySeats(req: seq<Seat>, rest: seq<char>, eof: Option<uint>, room: nat)
    requires |req| >= room && req != [] && forall i :: 0 <= i < |req| ==> Parsed(req[i])
    ensures ParsePairs(SeatsText(req, rest), eof, room).0.BadCoords?
  {
    hide ParsePair, SeatText;
    if room > 0 {
      if |req| == 1 {
        PairReads(req[0], ']', rest, eof);
      } else {
        PairReads(req[0], ' ', SeatsText(req[1..], rest), eof);
        TooManySeats(req[1..], rest, eof, room - 1);
      }
    }
  }

  /** A RESERVE line in the documented form is accepted exactly when it has fewer than 256 coordinates. */
  lemma ReserveAcceptedIff(id: uint, req: seq<Seat>, rest: seq<char>, eof: Option<uint>)
    requires req != [] && forall i :: 0 <= i < |req| ==> Parsed(req[i])
    ensures var item := ParseReserve(ReserveLine(id, req, rest), eof).0;
            if |req| < 256 then item == Do(Reserve(id, req)) else item == Invalid
  {
    if |req| < MAX_RESERVATION_SIZE {
      ReserveReads(id, req, rest, eof);
    } else {
      var seats := SeatsText(req, "\n" + rest);
      ParseNumber(id, ' ', "[" + seats, eof);
      Second('[', seats);
      TooManySeats(req, "\n" + rest, eof, MAX_RESERVATION_SIZE);
      hide ParseUint, Decimal, ParsePairs, SeatsText, AfterLine;
    }
  }

  /** A NUL ends a command without ending its line: the next turn starts in the middle of the line. */
  lemma NulEndsACommand(id: uint, rest: seq<char>, eof: Option<uint>)
    ensures ParseShow(Decimal(id) + ("\0" + rest), eof) == (Do(Show(id)), rest)
  {
    ParseNumber(id, '\0', rest, eof);
  }

  /** A CREATE line cut short after its event id takes the following line with it. */
  lemma CutLineSwallowsTheNext(id: uint, line: seq<char>, rest: seq<char>, eof: Option<uint>)
    requires '\n' !in line
    ensures ParseCreate(Ended(Decimal(id), Ended(line, rest)), eof) == (Invalid, rest)
  {
    ParseNumber(id, '\n', Ended(line, rest), eof);
    SkipLine(line, rest);
    hide ParseUint, Decimal, AfterLine;
  }

  /** The letter C alone on a line: the word read runs into the second line after it, and both are lost. */
  lemma ShortWordSwallowsTwo(a: seq<char>, b: seq<char>, rest: seq<char>, eof: Option<uint>)
    requires '\n' !in b && |a| <= 4 <= |a| + |b|
    ensures NextItem(Ended("C", Ended(a, Ended(b, rest))), eof) == (Invalid, rest)
  {
    hide AfterLine, AfterWord, Ended;
    var s := Ended("C", Ended(a, Ended(b, rest)));
    Head("C", Ended(a, Ended(b, rest)));
    assert |WordOf('C')| == 7;
    hide WordOf;
    WordInLine("C", Ended(a, Ended(b, rest)));
    SevenCharacters(a, b, rest);
    SkipLine(b[4 - |a|..], rest);
    CompleteReads(s, eof);
  }

  lemma SevenCharacters(a: seq<char>, b: seq<char>, rest: seq<char>)
    requires |a| <= 4 <= |a| + |b|
    ensures Rest(Ended("C", Ended(a, Ended(b, rest))), 7) == Ended(b[4 - |a|..], rest)
  {
    var second := Ended(b, rest);
    assert Ended("C", Ended(a, second))[7..] == Ended(a, second)[5..] == second[4 - |a|..] == Ended(b[4 - |a|..], rest);
  }

  // ---- Files that end without a newline ----------------------------------------------------------------------

  /** A RESERVE line in the documented form is rejected when the file ends after its bracket. */
  lemma ReserveNeedsItsNewline(id: uint, req: seq<Seat>, eof: Option<uint>)
    requires req != [] && forall i :: 0 <= i < |req| ==> Parsed(req[i])
    ensures ParseReserve(Decimal(id) + (" " + ("[" + SeatsText(req, ""))), eof).0 == Invalid
  {
    var seats := SeatsText(req, "");
    ParseNumber(id, ' ', "[" + seats, eof);
    Second('[', seats);
    if |req| < MAX_RESERVATION_SIZE {
      SeatsRead(req, "", eof, MAX_RESERVATION_SIZE);
    } else {
      TooManySeats(req, "", eof, MAX_RESERVATION_SIZE);
    }
    hide ParseUint, Decimal, ParsePairs, SeatsText, AfterLine;
  }

  /** The numeral that ends the file is whatever the unterminated buffer converts to. */
  lemma LastNumeral(digits: seq<char>, eof: Option<uint>)
    requires AllDigits(digits) && |digits| <= MAX_DIGITS
    ensures ParseUint(digits, eof) == (if eof.Some? then Number(eof.value, '\0') else TooBig, [])
  {
    assert digits[..|digits|] == digits;
    DigitRunAtLeast(digits, |digits|);
  }

  /** SHOW, WAIT and CREATE cut in the same way are accepted exactly when that conversion fits. */
  lemma CutAtTheEndIff(id: uint, rows: uint, digits: seq<char>, eof: Option<uint>)
    requires AllDigits(digits) && |digits| <= MAX_DIGITS
    ensures ParseShow(digits, eof) == (if eof.Some? then Do(Show(eof.value)) else Invalid, [])
    ensures ParseWait(digits, eof) == (if eof.Some? then Wait(eof.value) else Invalid, [])
    ensures ParseCreate(Decimal(id) + (" " + (Decimal(rows) + (" " + digits))), eof)
         == (if eof.Some? then Do(Create(id, rows, eof.value)) else Invalid, [])
  {
    LastNumeral(digits, eof);
    ParseNumber(rows, ' ', digits, eof);
    ParseNumber(id, ' ', Decimal(rows) + (" " + digits), eof);
    assert AfterLine([]) == [];
    hide ParseUint, Decimal, AfterLine;
  }
}
