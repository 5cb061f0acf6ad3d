/**
 * One line of a command file and the lines after it (parser.c): exactly when reading a line consumes that
 * line and no more. A line that is cut short, or ends in a numeral that is too large, takes text after it
 * along, because `cleanup` runs after its newline has been read.
 */
module Lines {
  import opened Common
  import opened Ems
  import opened Seats
  import opened Numbers
  import opened Parser
  import opened Resync

  /** A line without its newline: no NUL, and no numeral too long for parse_uint. */
  ghost predicate Plain(line: seq<char>) {
    '\n' !in line && '\0' !in line && ShortNumerals(line)
  }

  /** A line and the text after its newline. */
  function Ended(line: seq<char>, rest: seq<char>): seq<char> {
    line + ("\n" + rest)
  }

  // ---- The lines that stay in line, looking at the line alone ---------------------------------------------

  /** Something of the line follows the numeral. */
  predicate HasMore(l: seq<char>) {
    DigitRun(l) < |l|
  }

  /** The last numeral of a command may end the line unless it is too large. */
  predicate LastStays(l: seq<char>) {
    HasMore(l) || Fits(l)
  }

  predicate CreateStays(l: seq<char>) {
    && HasMore(l)
    && (Field(l, ' ') ==>
          var rows := AfterField(l);
          HasMore(rows) && (Field(rows, ' ') ==> LastStays(AfterField(rows))))
  }

  /** The line does not end within a pair nor right after it. */
  predicate PairStays(l: seq<char>) {
    && l != []
    && (l[0] == '(' ==>
          && HasMore(l[1..])
          && (Field(l[1..], ',') ==>
                var second := AfterField(l[1..]);
                HasMore(second) && (Field(second, ')') ==> AfterField(second) != [])))
  }

  /** What follows a complete pair. */
  function AfterPair(l: seq<char>): (next: seq<char>)
    requires PairField(l)
    ensures next != [] && |next| < |l|
  {
    AfterField(AfterField(l[1..]))
  }

  predicate PairsStay(l: seq<char>, room: nat)
    decreases room
  {
    room == 0
    || (PairStays(l) && (PairField(l) && AfterPair(l)[0] == ' ' ==> PairsStay(AfterPair(l)[1..], room - 1)))
  }

  predicate SeatsStay(l: seq<char>) {
    l != [] && (l[0] == '[' ==> PairsStay(l[1..], MAX_RESERVATION_SIZE))
  }

  predicate ReserveStays(l: seq<char>) {
    HasMore(l) && (Field(l, ' ') ==> SeatsStay(AfterField(l)))
  }

  predicate ArgumentsStay(command: Command, l: seq<char>) {
    match command
    case CREATE => CreateStays(l)
    case RESERVE => ReserveStays(l)
    case SHOW => LastStays(l)
    case WAIT => LastStays(l)
    case _ => true
  }

  /**
   * The word of the line's first letter fits in the line, and, after a word that matches, no further
   * separator, bracket or numeral is missing at the end of the line and no numeral that ends it is too large.
   */
  predicate StaysInLine(line: seq<char>) {
    line == []
    || var w := WordOf(line[0]);
       w == [] || (|w| <= |line| && (line[..|w|] == w ==> ArgumentsStay(CommandOf(line[0]), line[|w|..])))
  }

  // ---- Reading within a line ---------------------------------------------------------------------------------

  lemma PlainDrop(l: seq<char>, i: nat)
    requires Plain(l) && i <= |l|
    ensures Plain(l[i..])
  {
    forall j | 0 <= j <= |l[i..]| ensures DigitRun(l[i..][j..]) <= MAX_DIGITS {
      assert l[i..][j..] == l[i + j..];
    }
  }

  lemma Head(l: seq<char>, rest: seq<char>)
    ensures Ended(l, rest) != []
    ensures if l == [] then Ended(l, rest)[0] == '\n' && Ended(l, rest)[1..] == rest
            else Ended(l, rest)[0] == l[0] && Ended(l, rest)[1..] == Ended(l[1..], rest)
  {
  }

  /** Skipping the rest of a line that has not been left. */
  lemma {:induction false} SkipLine(l: seq<char>, rest: seq<char>)
    requires '\n' !in l
    ensures AfterLine(Ended(l, rest)) == rest
  {
    Head(l, rest);
    if l != [] { SkipLine(l[1..], rest); }
  }

  /** Skipping a line that follows. */
  lemma SkipsMore(r: seq<char>, rest: seq<char>)
    requires rest != [] && |r| <= |rest|
    ensures AfterLine(r) != rest
  {
  }

  /** What parse_uint finds in a line: only the line matters. */
  function NumeralOf(l: seq<char>): (n: Numeral)
    ensures !n.Overrun?
  {
    if !Fits(l) then TooBig else Number(ValueOf(l[..DigitRun(l)]), if HasMore(l) then l[DigitRun(l)] else '\n')
  }

  lemma {:induction false} DigitRunEnded(l: seq<char>, rest: seq<char>)
    ensures DigitRun(Ended(l, rest)) == DigitRun(l)
  {
    Head(l, rest);
    if l != [] && IsDigit(l[0]) { DigitRunEnded(l[1..], rest); }
  }

  lemma EndedAt(l: seq<char>, rest: seq<char>, d: nat)
    requires d <= |l|
    ensures d < |Ended(l, rest)| && Ended(l, rest)[..d] == l[..d]
    ensures Ended(l, rest)[d] == (if d < |l| then l[d] else '\n')
    ensures Ended(l, rest)[d + 1..] == if d < |l| then Ended(l[d + 1..], rest) else rest
  {
  }

  lemma NumeralInLine(l: seq<char>, rest: seq<char>, eof: Option<uint>)
    requires Plain(l)
    ensures ParseUint(Ended(l, rest), eof) == (NumeralOf(l), if HasMore(l) then Ended(AfterField(l), rest) else rest)
    ensures HasMore(l) ==> Plain(AfterField(l)) && l[DigitRun(l)] != '\0' && l[DigitRun(l)] != '\n'
  {
    hide DigitRun, Ended, ValueOf, Plain, Suffix, AllDigits;
    var d := DigitRun(l);
    DigitRunEnded(l, rest);
    EndedAt(l, rest, d);
    ShortHere(l);
    if d < |l| { PlainDrop(l, d + 1); }
  }

  lemma ShortHere(l: seq<char>)
    requires Plain(l)
    ensures DigitRun(l) <= MAX_DIGITS && forall i :: 0 <= i < |l| ==> l[i] != '\0' && l[i] != '\n'
  {
    assert l[0..] == l;
  }

  /** How the fields of a line show in its numeral. */
  lemma FieldIs(l: seq<char>, c: char)
    requires c != '\n'
    ensures Field(l, c) <==> NumeralOf(l).Number? && NumeralOf(l).next == c
    ensures !HasMore(l) ==> if Fits(l) then NumeralOf(l).Number? && NumeralOf(l).next == '\n' else NumeralOf(l).TooBig?
  {
  }

  // ---- One command ---------------------------------------------------------------------------------------------

  lemma ShowInLine(l: seq<char>, rest: seq<char>, eof: Option<uint>)
    requires Plain(l) && rest != []
    ensures ParseShow(Ended(l, rest), eof).1 == rest <==> LastStays(l)
    ensures ParseWait(Ended(l, rest), eof).1 == rest <==> LastStays(l)
  {
    hide ParseUint, AfterLine, Ended, DigitRun, Plain, AfterField;
    NumeralInLine(l, rest, eof);
    if HasMore(l) {
      PlainHasNoNewline(AfterField(l));
      SkipLine(AfterField(l), rest);
    } else {
      SkipsMore(rest, rest);
    }
  }

  lemma PlainHasNoNewline(l: seq<char>)
    requires Plain(l)
    ensures '\n' !in l
  {
  }

  /** `Bad` after the numeral of a line. */
  lemma BadInLine(l: seq<char>, rest: seq<char>, eof: Option<uint>)
    requires Plain(l) && rest != []
    ensures AfterLine(ParseUint(Ended(l, rest), eof).1) == rest <==> HasMore(l)
  {
    NumeralInLine(l, rest, eof);
    hide ParseUint, AfterLine, Ended, DigitRun, Plain, AfterField;
    if HasMore(l) {
      PlainHasNoNewline(AfterField(l));
      SkipLine(AfterField(l), rest);
    } else {
      SkipsMore(rest, rest);
    }
  }

  lemma CreateInLine(l: seq<char>, rest: seq<char>, eof: Option<uint>)
    requires Plain(l) && rest != []
    ensures ParseCreate(Ended(l, rest), eof).1 == rest <==> CreateStays(l)
  {
    hide ParseUint, AfterLine, Ended, DigitRun, Plain, AfterField, NumeralOf, HasMore, Fits, Field;
    NumeralInLine(l, rest, eof);
    BadInLine(l, rest, eof);
    FieldIs(l, ' ');
    if Field(l, ' ') {
      FieldHasMore(l, ' ');
      var rows := AfterField(l);
      NumeralInLine(rows, rest, eof);
      BadInLine(rows, rest, eof);
      FieldIs(rows, ' ');
      if Field(rows, ' ') {
        FieldHasMore(rows, ' ');
        LastInLine(AfterField(rows), rest, eof);
      }
    }
  }

  lemma FieldHasMore(l: seq<char>, c: char)
    requires Field(l, c)
    ensures HasMore(l)
  {
  }

  /** A last numeral leaves the following text exactly when it stays. */
  lemma LastInLine(l: seq<char>, rest: seq<char>, eof: Option<uint>)
    requires Plain(l) && rest != []
    ensures var (n, r) := ParseUint(Ended(l, rest), eof);
            && !n.Overrun?
            && ((if n.Number? && EndsLine(n.next) then r else AfterLine(r)) == rest <==> LastStays(l))
  {
    BadInLine(l, rest, eof);
    NumeralInLine(l, rest, eof);
    hide ParseUint, AfterLine, Ended, DigitRun, Plain, AfterField;
  }

  // ---- RESERVE -----------------------------------------------------------------------------------------------

  lemma PairFieldStays(l: seq<char>)
    ensures PairField(l) ==> PairStays(l)
  {
  }

  /** The pair at the front of a line. */
  function PairOf(l: seq<char>): (p: Pair)
    requires PairField(l)
    ensures p.Pair?
  {
    var second := AfterField(l[1..]);
    Pair(Seat(ValueOf(l[1..][..DigitRun(l[1..])]), ValueOf(second[..DigitRun(second)])), AfterPair(l)[0])
  }

  lemma FieldValue(l: seq<char>, c: char)
    requires Field(l, c)
    ensures NumeralOf(l) == Number(ValueOf(l[..DigitRun(l)]), c)
  {
  }

  /** The second number of a pair and the character after the closing parenthesis. */
  lemma SecondInLine(x: uint, l: seq<char>, rest: seq<char>, eof: Option<uint>)
    requires Plain(l)
    ensures var (p, r) := ParseSecond(x, Ended(l, rest), eof);
            var next := if HasMore(l) then AfterField(l) else [];
            if Field(l, ')') && next != [] && (next[0] == ' ' || next[0] == ']') then
              p == Pair(Seat(x, ValueOf(l[..DigitRun(l)])), next[0]) && r == Ended(next[1..], rest) && Plain(next[1..])
            else
              && p.BadPair?
              && if HasMore(l) && (Field(l, ')') ==> next != []) then AfterLine(r) == rest else |r| <= |rest|
  {
    hide ParseUint, AfterLine, Ended, DigitRun, Plain, AfterField, NumeralOf, Fits, Field;
    NumeralInLine(l, rest, eof);
    FieldIs(l, ')');
    if HasMore(l) {
      var next := AfterField(l);
      PlainHasNoNewline(next);
      SkipLine(next, rest);
      Head(next, rest);
      if next != [] {
        PlainDrop(next, 1);
        PlainHasNoNewline(next[1..]);
        SkipLine(next[1..], rest);
      }
      if Field(l, ')') { FieldValue(l, ')'); }
    }
    if Field(l, ')') { FieldHasMore(l, ')'); }
  }

  lemma PairInLine(l: seq<char>, rest: seq<char>, eof: Option<uint>)
    requires Plain(l)
    ensures var (p, r) := ParsePair(Ended(l, rest), eof);
            if PairField(l) then p == PairOf(l) && r == Ended(AfterPair(l)[1..], rest) && Plain(AfterPair(l)[1..])
            else p.BadPair? && if PairStays(l) then AfterLine(r) == rest else |r| <= |rest|
  {
    hide ParseUint, ParseSecond, AfterLine, Ended, DigitRun, Plain, AfterField, NumeralOf, Fits, Field;
    Head(l, rest);
    RestIs(Ended(l, rest), 1);
    if l != [] {
      var x := l[1..];
      PlainDrop(l, 1);
      PlainHasNoNewline(x);
      SkipLine(x, rest);
      NumeralInLine(x, rest, eof);
      FieldIs(x, ',');
      if HasMore(x) {
        PlainHasNoNewline(AfterField(x));
        SkipLine(AfterField(x), rest);
      }
      if Field(x, ',') {
        FieldHasMore(x, ',');
        FieldValue(x, ',');
        SecondInLine(NumeralOf(x).value, AfterField(x), rest, eof);
        if Field(AfterField(x), ')') { FieldHasMore(AfterField(x), ')'); }
      }
    }
  }

  /** The coordinates of a line and what is left of it after the closing bracket. */
  function PairsOf(l: seq<char>, room: nat): (r: (Coords, seq<char>))
    ensures !r.0.CoordsOverrun?
    decreases room
  {
    if room == 0 || !PairField(l) then (BadCoords, l)
    else if AfterPair(l)[0] == ']' then (if room == 1 then BadCoords else Coords([PairOf(l).seat]), AfterPair(l)[1..])
    else
      match PairsOf(AfterPair(l)[1..], room - 1)
      case (Coords(req), m) => (Coords([PairOf(l).seat] + req), m)
      case (bad, m) => (BadCoords, m)
  }

  lemma {:induction false} PairsInLine(l: seq<char>, rest: seq<char>, eof: Option<uint>, room: nat)
    requires Plain(l)
    ensures var (coords, r) := ParsePairs(Ended(l, rest), eof, room);
            var (found, m) := PairsOf(l, room);
            && coords == found
            && (coords.Coords? ==> PairsStay(l, room) && Plain(m) && r == Ended(m, rest))
            && (coords.BadCoords? ==> if PairsStay(l, room) then AfterLine(r) == rest else |r| <= |rest|)
    decreases room
  {
    hide ParsePair, AfterLine, Ended, Plain, PairStays, PairField, PairOf, AfterPair;
    if room == 0 {
      PlainHasNoNewline(l);
      SkipLine(l, rest);
    } else {
      PairInLine(l, rest, eof);
      PairFieldStays(l);
      if PairField(l) {
        PairNext(l);
        var later := AfterPair(l)[1..];
        PlainHasNoNewline(later);
        SkipLine(later, rest);
        if AfterPair(l)[0] != ']' { PairsInLine(later, rest, eof, room - 1); }
      }
    }
  }

  lemma PairNext(l: seq<char>)
    requires PairField(l)
    ensures PairOf(l).next == AfterPair(l)[0] && (AfterPair(l)[0] == ' ' || AfterPair(l)[0] == ']')
  {
  }

  lemma SeatsInLine(id: uint, l: seq<char>, rest: seq<char>, eof: Option<uint>)
    requires Plain(l) && rest != []
    ensures ParseSeats(id, Ended(l, rest), eof).1 == rest <==> SeatsStay(l)
  {
    hide ParsePairs, PairsStay, PairsOf, AfterLine, Ended, Plain;
    Head(l, rest);
    RestIs(Ended(l, rest), 1);
    SkipsMore(rest, rest);
    if l != [] {
      var list := l[1..];
      PlainDrop(l, 1);
      PlainHasNoNewline(list);
      SkipLine(list, rest);
      PairsInLine(list, rest, eof, MAX_RESERVATION_SIZE);
      var (coords, r) := ParsePairs(Ended(list, rest), eof, MAX_RESERVATION_SIZE);
      if coords.Coords? {
        AcceptInLine(PairsOf(list, MAX_RESERVATION_SIZE).1, rest);
      } else if |r| <= |rest| {
        SkipsMore(r, rest);
      }
    }
  }

  /** After the closing bracket the line ends or is rejected, and nothing more is consumed. */
  lemma AcceptInLine(m: seq<char>, rest: seq<char>)
    requires Plain(m)
    ensures var r := Ended(m, rest);
            r != [] && (if EndsLine(r[0]) then r[1..] else AfterLine(r[1..])) == rest && (EndsLine(r[0]) <==> m == [])
  {
    Head(m, rest);
    if m != [] {
      ShortHere(m);
      SkipLine(m[1..], rest);
    }
  }

  lemma ReserveInLine(l: seq<char>, rest: seq<char>, eof: Option<uint>)
    requires Plain(l) && rest != []
    ensures ParseReserve(Ended(l, rest), eof).1 == rest <==> ReserveStays(l)
  {
    hide ParseUint, ParseSeats, AfterLine, Ended, DigitRun, Plain, AfterField, NumeralOf, HasMore, Fits, Field;
    hide SeatsStay;
    NumeralInLine(l, rest, eof);
    BadInLine(l, rest, eof);
    FieldIs(l, ' ');
    if Field(l, ' ') {
      FieldHasMore(l, ' ');
      SeatsInLine(NumeralOf(l).value, AfterField(l), rest, eof);
    }
  }

  // ---- Whole lines --------------------------------------------------------------------------------------------

  lemma ArgumentsInLine(command: Command, l: seq<char>, rest: seq<char>, eof: Option<uint>)
    requires Plain(l) && rest != [] && !command.EMPTY? && !command.INVALID?
    ensures var (c, t) := AfterWord(command, Ended(l, rest));
            ParseArguments(c, t, eof).1 == rest <==> ArgumentsStay(command, l)
  {
    hide ParseCreate, ParseReserve, ParseShow, ParseWait, CreateStays, ReserveStays, LastStays, Ended, Plain, AfterLine;
    Head(l, rest);
    PlainHasNoNewline(l);
    if l != [] { SkipLine(l[1..], rest); }
    match command
    case CREATE => CreateInLine(l, rest, eof);
    case RESERVE => ReserveInLine(l, rest, eof);
    case SHOW => ShowInLine(l, rest, eof);
    case WAIT => ShowInLine(l, rest, eof);
    case _ =>
  }

  /** The word of a line is compared within the line, or runs over its newline and does not match. */
  lemma WordInLine(line: seq<char>, rest: seq<char>)
    requires '\n' !in line && line != []
    ensures var s, w := Ended(line, rest), WordOf(line[0]);
            && (|w| <= |line| ==> |w| <= |s| && s[..|w|] == line[..|w|] && s[|w|..] == Ended(line[|w|..], rest))
            && (|w| > |line| ==> (|s| < |w| || s[..|w|] != w) && |Rest(s, |w|)| <= |rest|)
  {
    var s, w := Ended(line, rest), WordOf(line[0]);
    assert s[|line|] == '\n';
    WordHasNoNewline(line[0]);
    hide WordOf;
    if |w| > |line| && |s| >= |w| { assert s[..|w|][|line|] == '\n'; }
  }

  lemma WordHasNoNewline(first: char)
    ensures '\n' !in WordOf(first)
  {
  }

  /**
   * Reading a line that more text follows leaves exactly that text if and only if the line stays in line:
   * for every first letter, every line without NUL and every following text.
   */
  lemma LineCostsItselfIff(line: seq<char>, rest: seq<char>, eof: Option<uint>)
    requires Plain(line) && rest != []
    ensures Ended(line, rest) != []
    ensures NextItem(Ended(line, rest), eof).1 == rest <==> StaysInLine(line)
  {
    hide WordOf, Ended, Plain, AfterLine, AfterWord, ParseArguments, ArgumentsStay, Rest;
    var s := Ended(line, rest);
    Head(line, rest);
    PlainHasNoNewline(line);
    if line == [] {
      NewlineReads(s, eof);
    } else {
      var w := WordOf(line[0]);
      PlainDrop(line, 1);
      SkipLine(line[1..], rest);
      WordInLine(line, rest);
      if w == [] {
        CompleteReads(s, eof);
      } else if |w| > |line| {
        SkipsMore(Rest(s, |w|), rest);
        CompleteReads(s, eof);
      } else {
        RestIs(s, |w|);
        PlainDrop(line, |w|);
        PlainHasNoNewline(line[|w|..]);
        SkipLine(line[|w|..], rest);
        ArgumentsInLine(CommandOf(line[0]), line[|w|..], rest, eof);
        CompleteReads(s, eof);
      }
    }
  }

  lemma NewlineReads(s: seq<char>, eof: Option<uint>)
    requires s != [] && s[0] == '\n'
    ensures NextItem(s, eof) == (Empty, s[1..])
  {
    hide AfterLine, ParseArguments;
    CompleteReads(s, eof);
  }

  /** After an empty or rejected line nothing more is parsed. */
  lemma CompleteReads(s: seq<char>, eof: Option<uint>)
    requires s != []
    ensures GetNext(s).0.EMPTY? ==> NextItem(s, eof) == (Empty, GetNext(s).1)
    ensures GetNext(s).0.INVALID? ==> NextItem(s, eof) == (Invalid, GetNext(s).1)
  {
    hide GetNext;
  }

  // ---- What a line is read as depends on the line alone ---------------------------------------------------------

  /** The item a line is read as. */
  function LineItem(line: seq<char>): Item {
    NextItem(Ended(line, []), None).0
  }

  lemma ShowSame(l: seq<char>, rest: seq<char>, eof: Option<uint>)
    requires Plain(l)
    ensures ParseShow(Ended(l, rest), eof).0 == ParseShow(Ended(l, []), None).0
    ensures ParseWait(Ended(l, rest), eof).0 == ParseWait(Ended(l, []), None).0
  {
    hide ParseUint, AfterLine, Ended, DigitRun, Plain, AfterField, NumeralOf, Fits;
    NumeralInLine(l, rest, eof);
    NumeralInLine(l, [], None);
  }

  /** What a CREATE line is read as. */
  function CreateItem(l: seq<char>): Item {
    if !Field(l, ' ') || !Field(AfterField(l), ' ') then Invalid
    else
      var id, rows, cols := NumeralOf(l), NumeralOf(AfterField(l)), NumeralOf(AfterField(AfterField(l)));
      if cols.Number? && cols.next == '\n' then Do(Op.Create(id.value, rows.value, cols.value)) else Invalid
  }

  lemma CreateIs(l: seq<char>, rest: seq<char>, eof: Option<uint>)
    requires Plain(l)
    ensures ParseCreate(Ended(l, rest), eof).0 == CreateItem(l)
  {
    hide ParseUint, AfterLine, Ended, DigitRun, Plain, AfterField, NumeralOf, Fits, Field;
    NumeralInLine(l, rest, eof);
    FieldIs(l, ' ');
    if Field(l, ' ') {
      FieldHasMore(l, ' ');
      var rows := AfterField(l);
      NumeralInLine(rows, rest, eof);
      FieldIs(rows, ' ');
      if Field(rows, ' ') {
        FieldHasMore(rows, ' ');
        NumeralInLine(AfterField(rows), rest, eof);
        NumeralEnds(AfterField(rows));
      }
    }
  }

  /** A numeral of a line is ended by a NUL never, and by a newline where the line ends. */
  lemma NumeralEnds(l: seq<char>)
    requires Plain(l)
    ensures NumeralOf(l).Number? ==> NumeralOf(l).next != '\0' && (NumeralOf(l).next == '\n' <==> !HasMore(l))
  {
    ShortHere(l);
  }

  lemma SeatsSame(id: uint, l: seq<char>, rest: seq<char>, eof: Option<uint>)
    requires Plain(l)
    ensures ParseSeats(id, Ended(l, rest), eof).0 == ParseSeats(id, Ended(l, []), None).0
  {
    hide ParsePairs, PairsStay, PairsOf, AfterLine, Ended, Plain;
    Head(l, rest);
    Head(l, []);
    if l != [] {
      PlainDrop(l, 1);
      PairsInLine(l[1..], rest, eof, MAX_RESERVATION_SIZE);
      PairsInLine(l[1..], [], None, MAX_RESERVATION_SIZE);
      var (coords, m) := PairsOf(l[1..], MAX_RESERVATION_SIZE);
      if coords.Coords? {
        AcceptInLine(m, rest);
        AcceptInLine(m, []);
      }
    }
  }

  lemma ReserveSame(l: seq<char>, rest: seq<char>, eof: Option<uint>)
    requires Plain(l)
    ensures ParseReserve(Ended(l, rest), eof).0 == ParseReserve(Ended(l, []), None).0
  {
    hide ParseUint, ParseSeats, AfterLine, Ended, DigitRun, Plain, AfterField, NumeralOf, Fits, Field;
    NumeralInLine(l, rest, eof);
    NumeralInLine(l, [], None);
    FieldIs(l, ' ');
    if Field(l, ' ') {
      FieldHasMore(l, ' ');
      SeatsSame(NumeralOf(l).value, AfterField(l), rest, eof);
    }
  }

  lemma ArgumentsSame(command: Command, l: seq<char>, rest: seq<char>, eof: Option<uint>)
    requires Plain(l) && !command.EMPTY? && !command.INVALID?
    ensures var (c, t) := AfterWord(command, Ended(l, rest));
            var (c', t') := AfterWord(command, Ended(l, []));
            ParseArguments(c, t, eof).0 == ParseArguments(c', t', None).0
  {
    hide ParseCreate, ParseReserve, ParseShow, ParseWait, Ended, Plain, AfterLine;
    Head(l, rest);
    Head(l, []);
    match command
    case CREATE =>
      CreateIs(l, rest, eof);
      CreateIs(l, [], None);
    case RESERVE => ReserveSame(l, rest, eof);
    case SHOW => ShowSame(l, rest, eof);
    case WAIT => ShowSame(l, rest, eof);
    case _ =>
  }

  lemma ReadsLineItem(line: seq<char>, rest: seq<char>, eof: Option<uint>)
    requires Plain(line)
    ensures Ended(line, rest) != [] && NextItem(Ended(line, rest), eof).0 == LineItem(line)
  {
    hide WordOf, Ended, Plain, AfterLine, AfterWord, ParseArguments, Rest;
    var s, s' := Ended(line, rest), Ended(line, []);
    Head(line, rest);
    Head(line, []);
    CompleteReads(s, eof);
    CompleteReads(s', None);
    if line == [] {
      NewlineReads(s, eof);
      NewlineReads(s', None);
    } else {
      var w := WordOf(line[0]);
      PlainHasNoNewline(line);
      assert line[0] in line;
      WordInLine(line, rest);
      WordInLine(line, []);
      if w != [] && |w| <= |line| {
        PlainDrop(line, |w|);
        ArgumentsSame(CommandOf(line[0]), line[|w|..], rest, eof);
      }
    }
  }

  // ---- Whole files, line by line ------------------------------------------------------------------------------------

  /** The file with these lines. */
  function Joined(lines: seq<seq<char>>): seq<char> {
    if lines == [] then [] else Ended(lines[0], Joined(lines[1..]))
  }

  ghost predicate AllPlain(lines: seq<seq<char>>) {
    forall i :: 0 <= i < |lines| ==> Plain(lines[i])
  }

  ghost predicate AllButLastStay(lines: seq<seq<char>>) {
    forall i :: 0 <= i < |lines| - 1 ==> StaysInLine(lines[i])
  }

  lemma NulFreeEnded(line: seq<char>, rest: seq<char>)
    requires Plain(line) && NulFree(rest)
    ensures NulFree(Ended(line, rest))
  {
    ShortHere(line);
    hide Plain;
  }

  lemma ShortEnded(line: seq<char>, rest: seq<char>)
    requires Plain(line) && ShortNumerals(rest)
    ensures ShortNumerals(Ended(line, rest))
  {
    var s := Ended(line, rest);
    forall i | 0 <= i <= |s| ensures DigitRun(s[i..]) <= MAX_DIGITS {
      if i <= |line| {
        PlainDrop(line, i);
        ShortHere(line[i..]);
        DigitRunEnded(line[i..], rest);
        assert s[i..] == Ended(line[i..], rest);
      } else {
        assert s[i..] == rest[i - |line| - 1..];
      }
    }
  }

  lemma {:induction false} JoinedIsPlain(lines: seq<seq<char>>)
    requires AllPlain(lines)
    ensures NulFree(Joined(lines)) && ShortNumerals(Joined(lines))
  {
    hide Plain, Ended, ShortNumerals, NulFree;
    if lines == [] {
      NothingIsPlain();
    } else {
      JoinedIsPlain(lines[1..]);
      NulFreeEnded(lines[0], Joined(lines[1..]));
      ShortEnded(lines[0], Joined(lines[1..]));
    }
  }

  lemma NothingIsPlain()
    ensures NulFree([]) && ShortNumerals([])
  {
  }

  /** Every line start of the file, and its end, is where some of its lines start. */
  lemma {:induction false} LineStartIsALine(lines: seq<seq<char>>, r: seq<char>) returns (j: nat)
    requires AllPlain(lines) && AtLineStart(Joined(lines), r)
    ensures j <= |lines| && r == Joined(lines[j..])
  {
    var s := Joined(lines);
    if r == s {
      j := 0;
    } else {
      var rest := Joined(lines[1..]);
      EndedLineStart(lines[0], rest, r);
      j := LineStartIsALine(lines[1..], r);
      assert lines[1..][j..] == lines[j + 1..];
      j := j + 1;
    }
  }

  lemma EndedLineStart(line: seq<char>, rest: seq<char>, r: seq<char>)
    requires Plain(line) && AtLineStart(Ended(line, rest), r) && r != Ended(line, rest)
    ensures AtLineStart(rest, r)
  {
    var s := Ended(line, rest);
    ShortHere(line);
    hide Plain;
    assert forall k :: 0 <= k < |line| ==> s[k] == line[k];
    assert |r| <= |rest|;
    assert r == rest[|rest| - |r|..];
  }

  /** What the first turn of a file leaves starts a later line: the second exactly when the first line stays. */
  lemma FirstTurn(lines: seq<seq<char>>, eof: Option<uint>) returns (j: nat)
    requires AllPlain(lines) && lines != []
    ensures Joined(lines) != []
    ensures var (item, r) := NextItem(Joined(lines), eof);
            && item == LineItem(lines[0]) && !item.Undefined?
            && 1 <= j <= |lines| && r == Joined(lines[j..])
            && (j == 1 <==> |lines| == 1 || StaysInLine(lines[0]))
  {
    hide NextItem, Items, Plain, StaysInLine, ShortNumerals, NulFree, SplitsAtNul, Ended;
    var s, rest := Joined(lines), Joined(lines[1..]);
    assert Plain(lines[0]);
    ReadsLineItem(lines[0], rest, eof);
    JoinedIsPlain(lines);
    NulFreeNeverSplits(s);
    NextItemResyncs(s, eof);
    var r := NextItem(s, eof).1;
    j := LineStartIsALine(lines, r);
    if |lines| > 1 {
      Head(lines[1], Joined(lines[2..]));
      assert lines[1..][1..] == lines[2..];
      LineCostsItselfIff(lines[0], rest, eof);
    }
    LaterIsShorter(lines, j);
    if j > 0 {
      LaterIsShorter(lines[1..], j - 1);
      assert lines[1..][j - 1..] == lines[j..];
    }
  }

  /** Later lines make a shorter text. */
  lemma {:induction false} LaterIsShorter(lines: seq<seq<char>>, j: nat)
    requires j <= |lines|
    ensures |Joined(lines[j..])| + j <= |Joined(lines)| && (j == 0 ==> Joined(lines[j..]) == Joined(lines))
  {
    if j == 0 {
      assert lines[0..] == lines;
    } else {
      LaterIsShorter(lines[1..], j - 1);
      assert lines[1..][j - 1..] == lines[j..];
    }
  }

  /**
   * A file is read line by line, one turn and one item for each line, if and only if every line but the last
   * stays in line; otherwise it takes fewer turns than it has lines.
   */
  lemma {:induction false} OneTurnPerLineIff(lines: seq<seq<char>>, eof: Option<uint>)
    requires AllPlain(lines)
    ensures var items := Items(Joined(lines), eof);
            && |items| <= |lines|
            && (|items| == |lines| <==> AllButLastStay(lines))
            && (AllButLastStay(lines) ==> forall i :: 0 <= i < |items| ==> items[i] == LineItem(lines[i]))
    decreases |lines|
  {
    hide NextItem, LineItem, StaysInLine, Plain, Ended;
    if lines != [] {
      var j := FirstTurn(lines, eof);
      OneTurnPerLineIff(lines[j..], eof);
      hide Joined;
      var items, later := Items(Joined(lines), eof), Items(Joined(lines[j..]), eof);
      assert items == [LineItem(lines[0])] + later;
      if j == 1 {
        assert AllButLastStay(lines) <==> AllButLastStay(lines[1..]) by {
          assert forall i :: 0 <= i < |lines[1..]| ==> lines[1..][i] == lines[i + 1];
          if AllButLastStay(lines[1..]) {
            forall i | 0 <= i < |lines| - 1 ensures StaysInLine(lines[i]) {
              if i > 0 { assert lines[i] == lines[1..][i - 1]; }
            }
          }
        }
      }
    }
  }
}
