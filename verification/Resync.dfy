/**
 * Where a turn of the client's command loop leaves the file (parser.c): at the start of a line or the end of
 * the file, except that a NUL character can end a command before its line ends.
 */
module Resync {
  import opened Common
  import opened Numbers
  import opened Parser

  // ---- A numeral and what follows it -------------------------------------------------------------------

  /** The value of the numeral at the front, possibly empty, fits an unsigned int. */
  predicate Fits(t: seq<char>) {
    ValueOf(t[..DigitRun(t)]) <= UINT_MAX
  }

  /** A numeral that fits, followed by the character `c`. */
  predicate Field(t: seq<char>, c: char) {
    var d := DigitRun(t);
    d < |t| && t[d] == c && Fits(t)
  }

  function AfterField(t: seq<char>): (r: seq<char>)
    requires DigitRun(t) < |t|
    ensures |r| < |t|
  {
    t[DigitRun(t) + 1..]
  }

  /** A numeral ended by a NUL that has text after it. */
  predicate EndsAtNul(t: seq<char>) {
    Field(t, '\0') && AfterField(t) != []
  }

  lemma FieldRead(t: seq<char>, c: char, eof: Option<uint>)
    requires !ParseUint(t, eof).0.Overrun? && c != '\0'
    ensures var (n, r) := ParseUint(t, eof);
            && (Field(t, c) <==> n.Number? && n.next == c)
            && (Field(t, c) ==> r == AfterField(t))
            && (EndsAtNul(t) <==> n.Number? && n.next == '\0' && r != [])
  {
  }

  // ---- Commands that end at a NUL with text after it ----------------------------------------------------

  predicate CreateSplits(t: seq<char>) {
    && Field(t, ' ')
    && var rows := AfterField(t);
    && Field(rows, ' ')
    && EndsAtNul(AfterField(rows))
  }

  /** Pairs up to the closing bracket, fewer than `room`, then a NUL with text after it. */
  predicate PairsSplit(t: seq<char>, room: nat)
    decreases room
  {
    && room > 0 && t != [] && t[0] == '(' && Field(t[1..], ',')
    && var second := AfterField(t[1..]);
    && Field(second, ')')
    && var next := AfterField(second);
    && next != []
    && if next[0] == ']' then room > 1 && |next| > 2 && next[1] == '\0'
       else next[0] == ' ' && PairsSplit(next[1..], room - 1)
  }

  predicate ReserveSplits(t: seq<char>) {
    && Field(t, ' ')
    && var list := AfterField(t);
    && list != [] && list[0] == '[' && PairsSplit(list[1..], MAX_RESERVATION_SIZE)
  }

  predicate ArgumentsSplit(command: Command, t: seq<char>) {
    match command
    case CREATE => CreateSplits(t)
    case RESERVE => ReserveSplits(t)
    case SHOW => EndsAtNul(t)
    case WAIT => EndsAtNul(t)
    case _ => false
  }

  /** The text starts with an accepted CREATE, RESERVE, SHOW or WAIT that ends at a NUL with text after it. */
  predicate SplitsAtNul(s: seq<char>) {
    && s != []
    && var w := WordOf(s[0]);
    && w != [] && |w| <= |s| && s[..|w|] == w
    && ArgumentsSplit(CommandOf(s[0]), s[|w|..])
  }

  ghost predicate NulFree(s: seq<char>) {
    forall i :: 0 <= i < |s| ==> s[i] != '\0'
  }

  lemma {:induction false} NulFreePairs(t: seq<char>, room: nat)
    requires NulFree(t)
    ensures !PairsSplit(t, room)
    decreases room
  {
    hide DigitRun, ValueOf;
    if PairsSplit(t, room) {
      var second := AfterField(t[1..]);
      var next := AfterField(second);
      assert NulFree(second);
      assert NulFree(next);
      if next[0] != ']' { NulFreePairs(next[1..], room - 1); }
    }
  }

  /** A text without NUL has no such command. */
  lemma NulFreeNeverSplits(s: seq<char>)
    requires NulFree(s)
    ensures !SplitsAtNul(s)
  {
    hide DigitRun, ValueOf, PairsSplit, WordOf;
    if SplitsAtNul(s) {
      var t := s[|WordOf(s[0])|..];
      assert NulFree(t);
      if ReserveSplits(t) { NulFreePairs(AfterField(t)[1..], MAX_RESERVATION_SIZE); }
    }
  }

  // ---- What is left after a turn --------------------------------------------------------------------------

  /** `r` is what is left of `s` after at least one whole line: it starts a line or is the end of the file. */
  ghost predicate Resynced(s: seq<char>, r: seq<char>) {
    |r| < |s| && r == s[|s| - |r|..] && (r != [] ==> s[|s| - |r| - 1] == '\n')
  }

  /** No numeral is too long for the buffer of parse_uint. */
  ghost predicate ShortNumerals(s: seq<char>) {
    forall i :: 0 <= i <= |s| ==> DigitRun(s[i..]) <= MAX_DIGITS
  }

  /**
   * A turn that stops at a numeral that is too long, or consumes some of the text and leaves a line start or
   * the end of the file exactly when its command is not split.
   */
  ghost predicate Turned(s: seq<char>, item: Item, r: seq<char>, split: bool) {
    if item.Undefined? then !ShortNumerals(s)
    else Suffix(s, r) && |r| < |s| && (Resynced(s, r) <==> !split)
  }

  lemma SelfSuffix(s: seq<char>)
    ensures Suffix(s, s) && (s != [] ==> Resynced(s, []))
  {
  }

  lemma SuffixTransitive(s: seq<char>, r: seq<char>, q: seq<char>)
    requires Suffix(s, r) && Suffix(r, q)
    ensures Suffix(s, q) && |q| <= |r| && (ShortNumerals(s) ==> ShortNumerals(r))
  {
    assert forall i :: 0 <= i <= |r| ==> r[i..] == s[|s| - |r| + i..];
  }

  lemma SkipSuffix(s: seq<char>, r: seq<char>)
    requires Suffix(s, r)
    ensures r != [] ==> Suffix(s, r[1..])
  {
  }

  lemma AfterLineResyncs(s: seq<char>, r: seq<char>)
    requires Suffix(s, r) && |r| < |s|
    ensures var q := AfterLine(r); Resynced(s, q) && Suffix(s, q) && |q| < |s|
  {
  }

  /** Skipping `n` characters leaves a suffix; skipping the rest of their line leaves a line start. */
  lemma SkipResyncs(s: seq<char>, r: seq<char>, n: nat)
    requires Suffix(s, r) && s != [] && (|r| == |s| ==> n > 0)
    ensures Suffix(s, Rest(r, n)) && |Rest(r, n)| < |s|
    ensures var q := AfterLine(Rest(r, n)); Resynced(s, q) && Suffix(s, q) && |q| < |s|
  {
    AfterLineResyncs(s, Rest(r, n));
  }

  /** Reading a character that ends a line, and one that only ends a command. */
  lemma OneChar(s: seq<char>, r: seq<char>)
    requires Suffix(s, r) && r != []
    ensures Suffix(s, r[1..]) && |r[1..]| < |s|
    ensures r[0] == '\n' ==> Resynced(s, r[1..])
    ensures r[0] == '\0' ==> (Resynced(s, r[1..]) <==> |r| == 1)
  {
    assert r[0] == s[|s| - |r|];
  }

  /** The terminator a numeral reports is the character before what is left, or the end of the file. */
  lemma TerminatorIs(s: seq<char>, eof: Option<uint>)
    ensures var (n, r) := ParseUint(s, eof);
            Suffix(s, r) && (n.Number? ==> (r == [] && n.next == '\0') || (|r| < |s| && n.next == s[|s| - |r| - 1]))
  {
  }

  /** A numeral accepted at the end of a line leaves a line start; one accepted at a NUL only at the end of the file. */
  lemma NumeralResyncs(s: seq<char>, t: seq<char>, eof: Option<uint>)
    requires Suffix(s, t) && |t| < |s|
    ensures var (n, r) := ParseUint(t, eof);
            && Suffix(s, r) && |r| < |s|
            && var q := AfterLine(r);
            && Resynced(s, q) && Suffix(s, q) && |q| < |s|
            && (n.Number? && n.next == '\n' ==> Resynced(s, r))
            && (n.Number? && n.next == '\0' ==> (Resynced(s, r) <==> r == []))
            && (n.Overrun? ==> !ShortNumerals(s))
  {
    TerminatorIs(t, eof);
    ParseSuffix(t, eof);
    var (n, r) := ParseUint(t, eof);
    SuffixTransitive(s, t, r);
    AfterLineResyncs(s, r);
    hide ParseUint, ShortNumerals, AfterLine;
    assert |r| < |t| ==> t[|t| - |r| - 1] == s[|s| - |r| - 1];
  }

  lemma ShowResyncs(s: seq<char>, t: seq<char>, eof: Option<uint>)
    requires Suffix(s, t) && |t| < |s|
    ensures var (item, r) := ParseShow(t, eof); Turned(s, item, r, EndsAtNul(t))
    ensures var (item, r) := ParseWait(t, eof); Turned(s, item, r, EndsAtNul(t))
  {
    hide ParseUint, AfterLine, Resynced, Suffix, ShortNumerals, EndsAtNul, Field;
    NumeralResyncs(s, t, eof);
    if !ParseUint(t, eof).0.Overrun? { FieldRead(t, ' ', eof); }
  }

  lemma CreateResyncs(s: seq<char>, t: seq<char>, eof: Option<uint>)
    requires Suffix(s, t) && |t| < |s|
    ensures var (item, r) := ParseCreate(t, eof); Turned(s, item, r, CreateSplits(t))
  {
    hide ParseUint, AfterLine, Resynced, Suffix, ShortNumerals, EndsAtNul, Field, AfterField;
    NumeralResyncs(s, t, eof);
    var (id, r) := ParseUint(t, eof);
    NumeralResyncs(s, r, eof);
    var (rows, q) := ParseUint(r, eof);
    NumeralResyncs(s, q, eof);
    if !id.Overrun? { FieldRead(t, ' ', eof); }
    if !rows.Overrun? { FieldRead(r, ' ', eof); }
    if !ParseUint(q, eof).0.Overrun? { FieldRead(q, ' ', eof); }
  }

  lemma ParseSuffix(s: seq<char>, eof: Option<uint>)
    ensures Suffix(s, ParseUint(s, eof).1) && (ParseUint(s, eof).0.Overrun? ==> !ShortNumerals(s))
  {
    assert s == s[0..];
  }

  lemma SecondSuffix(x: uint, s: seq<char>, eof: Option<uint>)
    ensures Suffix(s, ParseSecond(x, s, eof).1)
    ensures ParseSecond(x, s, eof).0.PairOverrun? ==> !ShortNumerals(s)
  {
    ParseSuffix(s, eof);
    var (n, r) := ParseUint(s, eof);
    SkipSuffix(s, r);
    hide ParseUint, Suffix, ShortNumerals;
    var (p, q) := ParseSecond(x, s, eof);
    assert q == r || (r != [] && q == r[1..]);
  }

  lemma PairSuffix(s: seq<char>, eof: Option<uint>)
    ensures Suffix(s, ParsePair(s, eof).1) && (ParsePair(s, eof).0.PairOverrun? ==> !ShortNumerals(s))
  {
    hide ParseUint, ParseSecond, Suffix, ShortNumerals;
    SelfSuffix(s);
    RestIs(s, 1);
    SkipSuffix(s, s);
    if s != [] {
      var (n, r) := ParseUint(s[1..], eof);
      ParseSuffix(s[1..], eof);
      SuffixTransitive(s, s[1..], r);
      if n.Number? {
        SecondSuffix(n.value, r, eof);
        SuffixTransitive(s, r, ParseSecond(n.value, r, eof).1);
      }
    }
  }

  lemma {:induction false} PairsSuffix(s: seq<char>, eof: Option<uint>, room: nat)
    ensures var (coords, r) := ParsePairs(s, eof, room);
            Suffix(s, r) && (coords.CoordsOverrun? ==> !ShortNumerals(s))
    decreases room
  {
    hide ParsePair, Suffix, ShortNumerals;
    SelfSuffix(s);
    PairSuffix(s, eof);
    if room > 0 {
      var r := ParsePair(s, eof).1;
      PairsSuffix(r, eof, room - 1);
      SuffixTransitive(s, r, ParsePairs(r, eof, room - 1).1);
    }
  }

  /** A pair is read exactly when it is written as two fields and a next character. */
  predicate PairField(t: seq<char>) {
    && t != [] && t[0] == '(' && Field(t[1..], ',')
    && var second := AfterField(t[1..]);
    && Field(second, ')')
    && var next := AfterField(second);
    && next != [] && (next[0] == ' ' || next[0] == ']')
  }

  lemma PairRead(t: seq<char>, eof: Option<uint>)
    requires !ParsePair(t, eof).0.PairOverrun?
    ensures var (p, r) := ParsePair(t, eof);
            && (p.Pair? <==> PairField(t))
            && (p.Pair? ==> var next := AfterField(AfterField(t[1..])); p.next == next[0] && r == next[1..])
  {
    hide ParseUint, Field, AfterField;
    if t != [] && t[0] == '(' {
      FieldRead(t[1..], ',', eof);
      var (n, r) := ParseUint(t[1..], eof);
      if n.Number? && n.next == ',' { FieldRead(r, ')', eof); }
    }
  }

  lemma {:induction false} PairsSplitIff(t: seq<char>, eof: Option<uint>, room: nat)
    requires !ParsePairs(t, eof, room).0.CoordsOverrun?
    ensures var (coords, r) := ParsePairs(t, eof, room);
            PairsSplit(t, room) <==> coords.Coords? && |r| > 1 && r[0] == '\0'
    decreases room
  {
    hide ParsePair, Field, AfterField;
    if room > 0 {
      PairRead(t, eof);
      var (p, r) := ParsePair(t, eof);
      if p.Pair? && p.next == ' ' { PairsSplitIff(r, eof, room - 1); }
    }
  }

  lemma SeatsResyncs(s: seq<char>, t: seq<char>, id: uint, eof: Option<uint>)
    requires Suffix(s, t) && |t| < |s|
    ensures var (item, r) := ParseSeats(id, t, eof);
            Turned(s, item, r, t != [] && t[0] == '[' && PairsSplit(t[1..], MAX_RESERVATION_SIZE))
  {
    hide ParsePairs, PairsSplit, AfterLine, Resynced, Suffix, ShortNumerals, Rest;
    SkipResyncs(s, t, 1);
    if t != [] {
      RestIs(t, 1);
      SkipSuffix(s, t);
      PairsSuffix(t[1..], eof, MAX_RESERVATION_SIZE);
      var (coords, q) := ParsePairs(t[1..], eof, MAX_RESERVATION_SIZE);
      SuffixTransitive(s, t[1..], q);
      AfterLineResyncs(s, q);
      if q != [] {
        OneChar(s, q);
        AfterLineResyncs(s, q[1..]);
      }
      if !coords.CoordsOverrun? { PairsSplitIff(t[1..], eof, MAX_RESERVATION_SIZE); }
    }
  }

  lemma ReserveResyncs(s: seq<char>, t: seq<char>, eof: Option<uint>)
    requires Suffix(s, t) && |t| < |s|
    ensures var (item, r) := ParseReserve(t, eof); Turned(s, item, r, ReserveSplits(t))
  {
    hide ParseUint, ParseSeats, AfterLine, Resynced, Suffix, ShortNumerals, Field, AfterField, PairsSplit;
    NumeralResyncs(s, t, eof);
    var (n, r) := ParseUint(t, eof);
    if n.Number? { SeatsResyncs(s, r, n.value, eof); }
    if !n.Overrun? { FieldRead(t, ' ', eof); }
  }

  /** The command ends with its word. */
  predicate Complete(command: Command) {
    command.LIST? || command.HELP? || command.EMPTY? || command.INVALID?
  }

  lemma AfterWordResyncs(s: seq<char>, t: seq<char>, command: Command)
    requires Suffix(s, t) && |t| < |s| && !command.EMPTY? && !command.INVALID?
    ensures var (c, r) := AfterWord(command, t);
            && Suffix(s, r) && |r| < |s| && (Complete(c) ==> Resynced(s, r))
            && (if Complete(command) then Complete(c) else c == command && r == t)
  {
    hide AfterLine, Rest, Suffix, Resynced;
    SelfSuffix(s);
    SkipResyncs(s, t, 1);
    RestIs(t, 1);
    if t != [] { OneChar(s, t); }
  }

  /** What get_next leaves: a line start after a complete or rejected line, else the arguments of its word. */
  lemma GetNextResyncs(s: seq<char>)
    requires s != []
    ensures var (command, r) := GetNext(s);
            && Suffix(s, r) && |r| < |s| && (Complete(command) ==> Resynced(s, r))
            && (SplitsAtNul(s) <==> ArgumentsSplit(command, r))
  {
    hide AfterLine, AfterWord, Rest, WordOf, Suffix, Resynced, ArgumentsSplit;
    var w := WordOf(s[0]);
    SelfSuffix(s);
    RestIs(s, 1);
    OneChar(s, s);
    SkipResyncs(s, s, 1);
    CompleteNeverSplits(EMPTY, AfterLine(s[1..]));
    CompleteNeverSplits(EMPTY, s[1..]);
    CompleteNeverSplits(INVALID, AfterLine(s[1..]));
    if w != [] {
      SkipResyncs(s, s, |w|);
      CompleteNeverSplits(INVALID, AfterLine(Rest(s, |w|)));
      if |w| <= |s| {
        RestIs(s, |w|);
        AfterWordResyncs(s, s[|w|..], CommandOf(s[0]));
        CompleteNeverSplits(CommandOf(s[0]), s[|w|..]);
        var (c, r) := AfterWord(CommandOf(s[0]), s[|w|..]);
        CompleteNeverSplits(c, r);
      }
    }
  }

  lemma CompleteNeverSplits(command: Command, t: seq<char>)
    ensures Complete(command) ==> !ArgumentsSplit(command, t)
  {
  }

  /**
   * Resynchronisation: on any text, valid or not, every turn of the client loop that does not overrun
   * consumes at least one byte, and leaves the start of a line or the end of the file exactly when it does
   * not end a command at a NUL that has text after it.
   */
  lemma NextItemResyncs(s: seq<char>, eof: Option<uint>)
    requires s != []
    ensures var (item, r) := NextItem(s, eof); Turned(s, item, r, SplitsAtNul(s))
  {
    hide GetNext, Resynced, Suffix, ShortNumerals, SplitsAtNul, ParseCreate, ParseReserve, ParseShow, ParseWait;
    hide CreateSplits, ReserveSplits, EndsAtNul;
    GetNextResyncs(s);
    var (command, t) := GetNext(s);
    match command
    case CREATE => CreateResyncs(s, t, eof);
    case RESERVE => ReserveResyncs(s, t, eof);
    case SHOW => ShowResyncs(s, t, eof);
    case WAIT => ShowResyncs(s, t, eof);
    case _ =>
  }

  // ---- Whole files --------------------------------------------------------------------------------------------

  /** What is left of the file after `k` turns. */
  function After(s: seq<char>, eof: Option<uint>, k: nat): seq<char>
    decreases k
  {
    if k == 0 || s == [] then s else After(NextItem(s, eof).1, eof, k - 1)
  }

  /** `r` starts a line of `s` or is its end. */
  ghost predicate AtLineStart(s: seq<char>, r: seq<char>) {
    |r| <= |s| && r == s[|s| - |r|..] && (r == [] || r == s || s[|s| - |r| - 1] == '\n')
  }

  lemma {:induction false} AfterNext(s: seq<char>, eof: Option<uint>, k: nat)
    ensures var r := After(s, eof, k); After(s, eof, k + 1) == if r == [] then [] else NextItem(r, eof).1
    decreases k
  {
    hide NextItem;
    if k > 0 && s != [] { AfterNext(NextItem(s, eof).1, eof, k - 1); }
  }

  lemma ShortSuffix(s: seq<char>, r: seq<char>)
    requires Suffix(s, r) && ShortNumerals(s)
    ensures ShortNumerals(r)
  {
    SelfSuffix(r);
    SuffixTransitive(s, r, r);
  }

  /** On any file with numerals of at most 15 digits every turn consumes a byte, so the end is reached. */
  lemma {:induction false} TurnsConsume(s: seq<char>, eof: Option<uint>, k: nat)
    requires ShortNumerals(s)
    ensures var r := After(s, eof, k);
            && Suffix(s, r) && ShortNumerals(r) && (r == [] || |r| + k <= |s|)
            && (r != [] ==> !NextItem(r, eof).0.Undefined?)
  {
    hide NextItem, ShortNumerals, Suffix, After, Resynced, SplitsAtNul;
    if k == 0 {
      AfterNothing(s, eof);
      SelfSuffix(s);
    } else {
      TurnsConsume(s, eof, k - 1);
      AfterNext(s, eof, k - 1);
      var r := After(s, eof, k - 1);
      if r == [] {
        SelfSuffix(s);
      } else {
        NextItemResyncs(r, eof);
        var q := NextItem(r, eof).1;
        SuffixTransitive(s, r, q);
        ShortSuffix(r, q);
      }
    }
    var r := After(s, eof, k);
    if r != [] { NextItemResyncs(r, eof); }
  }

  lemma AfterNothing(s: seq<char>, eof: Option<uint>)
    ensures After(s, eof, 0) == s
  {
  }

  /** Turn `k` of the file is what is read from what the first `k` turns leave. */
  lemma {:induction false} TurnReads(s: seq<char>, eof: Option<uint>, k: nat)
    requires k < |Items(s, eof)| && forall i :: 0 <= i < k ==> !Items(s, eof)[i].Undefined?
    ensures After(s, eof, k) != [] && Items(s, eof)[k] == NextItem(After(s, eof, k), eof).0
    decreases k
  {
    hide NextItem;
    if k > 0 {
      assert !Items(s, eof)[0].Undefined?;
      var r := NextItem(s, eof).1;
      assert Items(s, eof)[1..] == Items(r, eof);
      assert forall i :: 0 <= i < k - 1 ==> Items(r, eof)[i] == Items(s, eof)[i + 1];
      TurnReads(r, eof, k - 1);
    }
  }

  /** A split command leaves the middle of its line. */
  lemma SplitLeavesALine(s: seq<char>, eof: Option<uint>, k: nat)
    requires ShortNumerals(s) && SplitsAtNul(After(s, eof, k))
    ensures !AtLineStart(s, After(s, eof, k + 1))
  {
    hide NextItem, ShortNumerals, After, SplitsAtNul, Suffix, Resynced, AtLineStart;
    var r := After(s, eof, k);
    TurnsConsume(s, eof, k);
    NothingNeverSplits();
    AfterNext(s, eof, k);
    NextItemResyncs(r, eof);
    LineStartOf(s, r, NextItem(r, eof).1);
  }

  lemma NothingNeverSplits()
    ensures !SplitsAtNul([])
  {
  }

  lemma WholeText(s: seq<char>)
    ensures AtLineStart(s, s) && AtLineStart(s, [])
  {
  }

  lemma LineStartOf(s: seq<char>, r: seq<char>, q: seq<char>)
    requires Suffix(s, r) && Suffix(r, q) && |q| < |r|
    ensures AtLineStart(s, q) <==> Resynced(r, q)
  {
    assert q == s[|s| - |q|..];
    assert r[|r| - |q| - 1] == s[|s| - |q| - 1];
  }

  /** While no command is split, every turn starts a line. */
  lemma {:induction false} TurnsStartLines(s: seq<char>, eof: Option<uint>, k: nat)
    requires ShortNumerals(s) && forall j :: 0 <= j < k ==> !SplitsAtNul(After(s, eof, j))
    ensures AtLineStart(s, After(s, eof, k))
  {
    hide NextItem, ShortNumerals, After, SplitsAtNul, Suffix, Resynced, AtLineStart;
    WholeText(s);
    if k == 0 {
      AfterNothing(s, eof);
    } else {
      TurnsStartLines(s, eof, k - 1);
      TurnsConsume(s, eof, k - 1);
      AfterNext(s, eof, k - 1);
      var r := After(s, eof, k - 1);
      if r != [] {
        NextItemResyncs(r, eof);
        LineStartOf(s, r, NextItem(r, eof).1);
      }
    }
  }

  /** On a file with numerals of at most 15 digits every turn starts a line exactly when no command is split. */
  lemma EveryTurnStartsALineIff(s: seq<char>, eof: Option<uint>)
    requires ShortNumerals(s)
    ensures (forall k: nat :: AtLineStart(s, After(s, eof, k))) <==> (forall k: nat :: !SplitsAtNul(After(s, eof, k)))
  {
    hide ShortNumerals, After, SplitsAtNul, AtLineStart;
    if forall k: nat :: !SplitsAtNul(After(s, eof, k)) {
      forall k: nat ensures AtLineStart(s, After(s, eof, k)) { TurnsStartLines(s, eof, k); }
    } else {
      var k: nat :| SplitsAtNul(After(s, eof, k));
      SplitLeavesALine(s, eof, k);
    }
  }

  /** On any file without NUL, valid or not, with numerals of at most 15 digits, every turn starts a line. */
  lemma EveryTurnStartsALine(s: seq<char>, eof: Option<uint>, k: nat)
    requires NulFree(s) && ShortNumerals(s)
    ensures AtLineStart(s, After(s, eof, k))
  {
    hide NextItem, ShortNumerals, After, SplitsAtNul, AtLineStart;
    forall j | 0 <= j < k ensures !SplitsAtNul(After(s, eof, j)) {
      TurnsConsume(s, eof, j);
      NulFreeNeverSplits(After(s, eof, j));
    }
    TurnsStartLines(s, eof, k);
  }

  /** No item of such a file is undefined. */
  lemma {:induction false} ShortNumeralsAreDefined(s: seq<char>, eof: Option<uint>)
    requires ShortNumerals(s)
    ensures forall i :: 0 <= i < |Items(s, eof)| ==> !Items(s, eof)[i].Undefined?
    decreases |s|
  {
    hide NextItem, ShortNumerals, SplitsAtNul;
    if s != [] {
      var (item, r) := NextItem(s, eof);
      NextItemResyncs(s, eof);
      if !item.Undefined? {
        ShortSuffix(s, r);
        ShortNumeralsAreDefined(r, eof);
      }
    }
  }
}
