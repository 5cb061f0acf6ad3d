/** The command-file reader of the client (parser.c), on values: what each parser makes of the text left. */
module Parser {
  import opened Common
  import opened Seats
  import opened Ems
  import opened Numbers

  /** One turn of the client's command loop. */
  datatype Item =
    | Do(op: Op)
    | Wait(delay: uint)
    | Help
    | Empty
    | Invalid
    | Undefined     // a numeral has overrun the buffer of parse_uint

  /** `cleanup`: skip the rest of the line and its newline. */
  function AfterLine(s: seq<char>): (r: seq<char>)
    ensures Suffix(s, r) && (s != [] ==> |r| < |s|)
    ensures r != [] ==> s[|s| - |r| - 1] == '\n'
  {
    if s == [] then [] else if s[0] == '\n' then s[1..] else AfterLine(s[1..])
  }

  function Rest(s: seq<char>, n: nat): seq<char> {
    if n <= |s| then s[n..] else []
  }

  // ---- get_next ------------------------------------------------------------------------------------

  datatype Command = CREATE | RESERVE | SHOW | LIST | WAIT | HELP | EMPTY | INVALID

  function WordOf(first: char): (w: seq<char>)
    ensures w != [] ==> w[0] == first && |w| <= 8
    ensures w == [] <==> CommandOf(first).INVALID?
  {
    match first
    case 'C' => "CREATE "
    case 'R' => "RESERVE "
    case 'S' => "SHOW "
    case 'L' => "LIST"
    case 'W' => "WAIT "
    case 'H' => "HELP"
    case _ => ""
  }

  function CommandOf(first: char): Command {
    match first
    case 'C' => CREATE
    case 'R' => RESERVE
    case 'S' => SHOW
    case 'L' => LIST
    case 'W' => WAIT
    case 'H' => HELP
    case _ => INVALID
  }

  /** LIST and HELP must end their line or the file; the other words are followed by arguments. */
  function AfterWord(command: Command, t: seq<char>): (r: (Command, seq<char>))
    ensures |r.1| <= |t|
  {
    if (!command.LIST? && !command.HELP?) || t == [] then (command, t)
    else if t[0] == '\n' then (command, t[1..])
    else (INVALID, AfterLine(t[1..]))
  }

  /** `get_next` on a non-empty rest of the file: the command and what is left after it. */
  function GetNext(s: seq<char>): (r: (Command, seq<char>))
    requires s != []
    ensures |r.1| < |s|
  {
    var w := WordOf(s[0]);
    if w == [] then
      if s[0] == '\n' then (EMPTY, s[1..])
      else if s[0] == '#' then (EMPTY, AfterLine(s[1..]))
      else (INVALID, AfterLine(s[1..]))
    else if |s| < |w| || s[..|w|] != w then (INVALID, AfterLine(Rest(s, |w|)))
    else AfterWord(CommandOf(s[0]), s[|w|..])
  }

  // ---- Arguments -------------------------------------------------------------------------------------

  predicate EndsLine(c: char) {
    c == '\n' || c == '\0'
  }

  function Bad(rest: seq<char>): (r: (Item, seq<char>))
    ensures |r.1| <= |rest|
  {
    (Invalid, AfterLine(rest))
  }

  /** `parse_create`. */
  function ParseCreate(s: seq<char>, eof: Option<uint>): (r: (Item, seq<char>))
    ensures |r.1| <= |s|
  {
    match ParseUint(s, eof)
    case (Overrun, r) => (Undefined, r)
    case (TooBig, r) => Bad(r)
    case (Number(id, c), r) =>
      if c != ' ' then Bad(r)
      else
        match ParseUint(r, eof)
        case (Overrun, r) => (Undefined, r)
        case (TooBig, r) => Bad(r)
        case (Number(rows, c), r) =>
          if c != ' ' then Bad(r)
          else
            match ParseUint(r, eof)
            case (Overrun, r) => (Undefined, r)
            case (TooBig, r) => Bad(r)
            case (Number(cols, c), r) =>
              if EndsLine(c) then (Do(Create(id, rows, cols)), r) else Bad(r)
  }

  /** `parse_show`. */
  function ParseShow(s: seq<char>, eof: Option<uint>): (r: (Item, seq<char>))
    ensures |r.1| <= |s|
  {
    match ParseUint(s, eof)
    case (Overrun, r) => (Undefined, r)
    case (TooBig, r) => Bad(r)
    case (Number(id, c), r) => if EndsLine(c) then (Do(Show(id)), r) else Bad(r)
  }

  /** `parse_wait` with no thread id wanted: what follows a space is skipped. */
  function ParseWait(s: seq<char>, eof: Option<uint>): (r: (Item, seq<char>))
    ensures |r.1| <= |s|
  {
    match ParseUint(s, eof)
    case (Overrun, r) => (Undefined, r)
    case (TooBig, r) => Bad(r)
    case (Number(delay, c), r) =>
      if c == ' ' then (Wait(delay), AfterLine(r))
      else if EndsLine(c) then (Wait(delay), r)
      else Bad(r)
  }

  /** The coordinates read by the loop of `parse_reserve`, or why it gave up. */
  datatype Coords = Coords(req: seq<Seat>) | BadCoords | CoordsOverrun

  /** One "(x,y)" and the character after it. */
  datatype Pair = Pair(seat: Seat, next: char) | BadPair | PairOverrun

  function ParsePair(s: seq<char>, eof: Option<uint>): (r: (Pair, seq<char>))
    ensures |r.1| <= |s| && (s != [] ==> |r.1| < |s|)
  {
    if s == [] || s[0] != '(' then (BadPair, Rest(s, 1))
    else
      match ParseUint(s[1..], eof)
      case (Overrun, r) => (PairOverrun, r)
      case (TooBig, r) => (BadPair, r)
      case (Number(x, c), r) => if c != ',' then (BadPair, r) else ParseSecond(x, r, eof)
  }

  function ParseSecond(x: uint, s: seq<char>, eof: Option<uint>): (r: (Pair, seq<char>))
    ensures |r.1| <= |s|
  {
    match ParseUint(s, eof)
    case (Overrun, r) => (PairOverrun, r)
    case (TooBig, r) => (BadPair, r)
    case (Number(y, c), r) =>
      if c != ')' then (BadPair, r)
      else if r == [] then (BadPair, r)
      else if r[0] != ' ' && r[0] != ']' then (BadPair, r[1..])
      else (Pair(Seat(x, y), r[0]), r[1..])
  }

  /** The loop of `parse_reserve` with room for `room` more pairs; filling the arrays is an error. */
  function ParsePairs(s: seq<char>, eof: Option<uint>, room: nat): (r: (Coords, seq<char>))
    ensures |r.1| <= |s|
    ensures r.0.Coords? ==> 1 <= |r.0.req| < room
    decreases room
  {
    if room == 0 then (BadCoords, s)
    else
      match ParsePair(s, eof)
      case (PairOverrun, r) => (CoordsOverrun, r)
      case (BadPair, r) => (BadCoords, r)
      case (Pair(seat, next), r) =>
        if next == ']' then (if room == 1 then BadCoords else Coords([seat]), r)
        else
          match ParsePairs(r, eof, room - 1)
          case (Coords(req), r) => (Coords([seat] + req), r)
          case (bad, r) => (bad, r)
  }

  /** `parse_reserve` after the event id. */
  function ParseSeats(id: uint, s: seq<char>, eof: Option<uint>): (r: (Item, seq<char>))
    ensures |r.1| <= |s|
  {
    if s == [] || s[0] != '[' then Bad(Rest(s, 1))
    else
      match ParsePairs(s[1..], eof, MAX_RESERVATION_SIZE)
      case (CoordsOverrun, r) => (Undefined, r)
      case (BadCoords, r) => Bad(r)
      case (Coords(req), r) =>
        if r == [] then Bad(r)
        else if EndsLine(r[0]) then (Do(Reserve(id, req)), r[1..])
        else Bad(r[1..])
  }

  /** `parse_reserve`. */
  function ParseReserve(s: seq<char>, eof: Option<uint>): (r: (Item, seq<char>))
    ensures |r.1| <= |s|
  {
    match ParseUint(s, eof)
    case (Overrun, r) => (Undefined, r)
    case (TooBig, r) => Bad(r)
    case (Number(id, c), r) => if c != ' ' then Bad(r) else ParseSeats(id, r, eof)
  }

  /** What the client's loop does after get_next. */
  function ParseArguments(command: Command, t: seq<char>, eof: Option<uint>): (r: (Item, seq<char>))
    ensures |r.1| <= |t|
  {
    match command
    case CREATE => ParseCreate(t, eof)
    case RESERVE => ParseReserve(t, eof)
    case SHOW => ParseShow(t, eof)
    case LIST => (Do(Op.ListEvents), t)
    case WAIT => ParseWait(t, eof)
    case HELP => (Help, t)
    case EMPTY => (Empty, t)
    case INVALID => (Invalid, t)
  }

  /** One turn of the client's loop on a non-empty rest of the file. */
  function NextItem(s: seq<char>, eof: Option<uint>): (r: (Item, seq<char>))
    requires s != []
    ensures |r.1| < |s|
  {
    var (command, t) := GetNext(s);
    ParseArguments(command, t, eof)
  }

  lemma RestIs(s: seq<char>, n: nat)
    requires n <= |s| || s == []
    ensures Rest(s, n) == if s == [] then [] else s[n..]
  {
  }

  // ---- The client's guarantees ----------------------------------------------------------------------

  predicate Parsed(s: Seat) {
    s.row <= UINT_MAX && s.col <= UINT_MAX
  }

  /** The operations a client can send: numbers of an unsigned int, and 1 to 255 coordinates. */
  predicate ByClient(op: Op) {
    match op
    case Create(_, rows, cols) => rows <= UINT_MAX && cols <= UINT_MAX
    case Reserve(_, req) => 1 <= |req| < MAX_RESERVATION_SIZE && forall i :: 0 <= i < |req| ==> Parsed(req[i])
    case _ => true
  }

  lemma PairParsed(s: seq<char>, eof: Option<uint>)
    ensures var p := ParsePair(s, eof).0; p.Pair? ==> Parsed(p.seat)
  {
    hide ParseUint;
  }

  lemma {:induction false} PairsParsed(s: seq<char>, eof: Option<uint>, room: nat)
    ensures var coords := ParsePairs(s, eof, room).0;
            coords.Coords? ==> forall i :: 0 <= i < |coords.req| ==> Parsed(coords.req[i])
    decreases room
  {
    hide ParsePair, Parsed;
    PairParsed(s, eof);
    if room > 0 {
      var (p, r) := ParsePair(s, eof);
      if p.Pair? { PairsParsed(r, eof, room - 1); }
    }
  }

  /** Whatever the text, an operation that is read is one of these. */
  lemma ReadsByClient(s: seq<char>, eof: Option<uint>)
    requires s != []
    ensures var item := NextItem(s, eof).0; item.Do? ==> ByClient(item.op)
  {
    hide ParseUint, ParsePairs, AfterLine, GetNext, Parsed;
    var (command, t) := GetNext(s);
    if command.RESERVE? {
      var (n, r) := ParseUint(t, eof);
      if r != [] { PairsParsed(r[1..], eof, MAX_RESERVATION_SIZE); }
    }
  }

  /** The items of a whole file, up to the end of the file or an overrun. */
  function Items(s: seq<char>, eof: Option<uint>): (items: seq<Item>)
    ensures forall i :: 0 <= i < |items| && items[i].Do? ==> ByClient(items[i].op)
    decreases |s|
  {
    if s == [] then []
    else
      ReadsByClient(s, eof);
      var (item, r) := NextItem(s, eof);
      if item.Undefined? then [item] else [item] + Items(r, eof)
  }
}
